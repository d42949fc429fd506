/** _validate of main_ppo_sync.py: of every session the last output becomes a sample, and a dictionary over all batches
    says which sample is whose. */
module ValidationSamples {
  import opened FinalSessions
  import opened OutputKeys
  import opened Wrappers

  // ----- reading the keys -----

  /** What the scan reads out of a key; a key without three fields is a session of its own. */
  datatype Reading = Reading(row: Row, plain: bool)

  /** None where int() fails. */
  function Read(key: string): Option<Reading> {
    if |RSplit(key, 2)| != 3 then Some(Reading(Row(key, 0), true))
    else match ParseRow(key)
         case None => None
         case Some(row) => Some(Reading(row, false))
  }

  ghost predicate AllRead(read: string -> Option<Reading>, keys: seq<string>, batch: seq<Reading>) {
    |batch| == |keys| && forall i :: 0 <= i < |keys| ==> read(keys[i]) == Some(batch[i])
  }

  method ReadKeys(read: string -> Option<Reading>, keys: seq<string>) returns (batch: Option<seq<Reading>>)
    ensures batch.Some? <==> forall i :: 0 <= i < |keys| ==> read(keys[i]).Some?
    ensures batch.Some? ==> AllRead(read, keys, batch.value)
  {
    var readings: seq<Reading> := [];
    for k := 0 to |keys|
      invariant AllRead(read, keys[..k], readings)
    {
      var reading := read(keys[k]);
      if reading.None? {
        return None;
      }
      assert keys[..k + 1] == keys[..k] + [keys[k]];
      readings := readings + [reading.value];
    }
    assert keys[..|keys|] == keys;
    batch := Some(readings);
  }

  /** The keys of outputs have three fields and can be read. */
  lemma OutputKeyIsRead(uid: string, session: nat, index: nat)
    ensures Read(OutputString(uid, session, index)) == Some(Reading(Row(SessionKey(uid, session), index), false))
  {
    SplitUndoesFormat(uid, session, index);
    RowOfOutput(uid, session, index);
  }

  /** A key with three fields at least: the session is what comes before the last underscore, the index what comes
      behind it. */
  lemma {:induction false} ReadIs(uid: string, session: string, index: string)
    requires '_' !in session && '_' !in index
    ensures Read(uid + "_" + session + "_" + index) ==
            match ParseInt(index)
            case None => None
            case Some(i) => Some(Reading(Row(uid + "_" + session, i), false))
  {
    SplitThree(uid, session, index);
    ParseRowIs(uid, session, index);
  }

  /** A key with fewer is its own session, with index 0. */
  lemma {:induction false} ShortKeyIsRead(first: string, second: string)
    requires '_' !in first && '_' !in second
    ensures Read(first) == Some(Reading(Row(first, 0), true))
    ensures Read(first + "_" + second) == Some(Reading(Row(first + "_" + second, 0), true))
  {
    SplitShort(first, second);
  }

  // ----- one batch -----

  function Rows(batch: seq<Reading>): (rows: seq<Row>)
    ensures |rows| == |batch|
  {
    seq(|batch|, i requires 0 <= i < |batch| => batch[i].row)
  }

  /** A plain key after row k and up to row i, of the session of row i. */
  ghost predicate PlainBetween(batch: seq<Reading>, k: nat, i: nat)
    requires k < |batch| && i < |batch|
  {
    exists m :: k < m <= i && batch[m].plain && batch[m].row.session == batch[i].row.session
  }

  /** Row i has not lost its session to row k: a plain key takes the session from all before it, another key from those
      with lower indices. */
  ghost predicate Withstands(batch: seq<Reading>, k: nat, i: nat)
    requires k < |batch| && i < |batch|
  {
    batch[k].row.session == batch[i].row.session && k != i ==>
      if k < i then PlainBetween(batch, k, i) || batch[k].row.index < batch[i].row.index
      else !batch[k].plain && batch[k].row.index <= batch[i].row.index
  }

  ghost predicate IsSample(batch: seq<Reading>, i: nat)
    requires i < |batch|
  {
    forall k :: 0 <= k < |batch| ==> Withstands(batch, k, i)
  }

  /** A session has one such row. */
  lemma SampleIsUnique(batch: seq<Reading>, i: nat, j: nat)
    requires i < |batch| && j < |batch| && batch[i].row.session == batch[j].row.session
    requires IsSample(batch, i) && IsSample(batch, j)
    ensures i == j
  {
    if i < j {
      EarlierLoses(batch, i, j);
    } else if j < i {
      EarlierLoses(batch, j, i);
    }
  }

  lemma EarlierLoses(batch: seq<Reading>, i: nat, j: nat)
    requires i < j < |batch| && batch[i].row.session == batch[j].row.session && IsSample(batch, i)
    ensures !IsSample(batch, j)
  {
    forall m | i < m <= j && batch[m].row.session == batch[j].row.session
      ensures !batch[m].plain && batch[m].row.index <= batch[i].row.index
    {
      assert Withstands(batch, m, i);
    }
    assert !PlainBetween(batch, i, j);
    assert !Withstands(batch, i, j);
  }

  /** Without plain keys it is the final row of the session. */
  lemma SampleIsFinal(batch: seq<Reading>, i: nat)
    requires i < |batch| && IsSample(batch, i)
    requires forall k :: 0 <= k < |batch| && batch[k].row.session == batch[i].row.session ==> !batch[k].plain
    ensures IsFinal(Rows(batch), i)
  {
    var rows := Rows(batch);
    forall k | 0 <= k < |rows| && rows[k].session == rows[i].session
      ensures NotAfter(rows, k, i)
    {
      assert Withstands(batch, k, i);
    }
  }

  /** session_max. */
  type Best = map<string, (int, nat)>

  ghost predicate BestOf(batch: seq<Reading>, best: Best, s: string) {
    && s in best && best[s].1 < |batch|
    && batch[best[s].1].row == Row(s, best[s].0)
    && IsSample(batch, best[s].1)
  }

  ghost predicate Scanned(batch: seq<Reading>, best: Best) {
    && (forall i :: 0 <= i < |batch| ==> batch[i].row.session in best)
    && (forall s :: s in best ==> BestOf(batch, best, s))
  }

  function Next(best: Best, reading: Reading, i: nat): Best {
    var s := reading.row.session;
    if reading.plain || s !in best || reading.row.index > best[s].0 then best[s := (reading.row.index, i)] else best
  }

  /** An earlier row keeps its session against a further one. */
  lemma StillSample(batch: seq<Reading>, i: nat, reading: Reading)
    requires i < |batch| && IsSample(batch, i)
    requires reading.row.session == batch[i].row.session ==> !reading.plain && reading.row.index <= batch[i].row.index
    ensures IsSample(batch + [reading], i)
  {
    var next := batch + [reading];
    forall k | 0 <= k < |next|
      ensures Withstands(next, k, i)
    {
      if k < |batch| {
        assert Withstands(batch, k, i);
        if k < i && PlainBetween(batch, k, i) {
          var m :| k < m <= i && batch[m].plain && batch[m].row.session == batch[i].row.session;
          assert next[m] == batch[m];
        }
      }
    }
  }

  /** A further row takes the session. */
  lemma NewSample(batch: seq<Reading>, best: Best, reading: Reading)
    requires Scanned(batch, best)
    requires var s := reading.row.session; reading.plain || s !in best || reading.row.index > best[s].0
    ensures IsSample(batch + [reading], |batch|)
  {
    var n, s := |batch|, reading.row.session;
    var next := batch + [reading];
    forall k | 0 <= k < |next|
      ensures Withstands(next, k, n)
    {
      if k < n && batch[k].row.session == s {
        if reading.plain {
          assert next[n].plain;
          assert PlainBetween(next, k, n);
        } else {
          assert BestOf(batch, best, s);
          var i := best[s].1;
          assert Withstands(batch, k, i);
          if k < i && PlainBetween(batch, k, i) {
            var m :| k < m <= i && batch[m].plain && batch[m].row.session == batch[i].row.session;
            assert next[m] == batch[m];
            assert PlainBetween(next, k, n);
          }
        }
      }
    }
  }

  lemma ScanNext(batch: seq<Reading>, best: Best, reading: Reading)
    requires Scanned(batch, best)
    ensures Scanned(batch + [reading], Next(best, reading, |batch|))
  {
    var s := reading.row.session;
    var next, after := batch + [reading], Next(best, reading, |batch|);
    forall t | t in after
      ensures BestOf(next, after, t)
    {
      if t == s && (reading.plain || s !in best || reading.row.index > best[s].0) {
        NewSample(batch, best, reading);
      } else {
        assert BestOf(batch, best, t);
        StillSample(batch, best[t].1, reading);
      }
    }
  }

  method ScanBatch(batch: seq<Reading>) returns (best: Best)
    ensures Scanned(batch, best)
  {
    best := map[];
    for i := 0 to |batch|
      invariant Scanned(batch[..i], best)
    {
      ScanNext(batch[..i], best, batch[i]);
      assert batch[..i + 1] == batch[..i] + [batch[i]];
      best := Next(best, batch[i], i);
    }
    assert batch[..|batch|] == batch;
  }

  /** The sessions with their row before row n, in the order of these rows. */
  ghost predicate IsSorted(best: Best, sessions: seq<string>, n: nat) {
    && (forall k :: 0 <= k < |sessions| ==> sessions[k] in best && best[sessions[k]].1 < n)
    && (forall k, l :: 0 <= k < l < |sessions| ==> best[sessions[k]].1 < best[sessions[l]].1)
    && (forall s :: s in best && best[s].1 < n ==> s in sessions)
  }

  /** sorted(session_max.items(), key=position): the positions are distinct, so it can go by them. */
  method SortSessions(batch: seq<Reading>, best: Best) returns (sessions: seq<string>)
    requires Scanned(batch, best)
    ensures IsSorted(best, sessions, |batch|)
  {
    sessions := [];
    for i := 0 to |batch|
      invariant IsSorted(best, sessions, i)
    {
      var s := batch[i].row.session;
      SessionAt(batch, best, i);
      if best[s].1 == i {
        sessions := sessions + [s];
      }
    }
  }

  /** Only the session of row i can have that row. */
  lemma SessionAt(batch: seq<Reading>, best: Best, i: nat)
    requires Scanned(batch, best) && i < |batch|
    ensures batch[i].row.session in best
    ensures forall s :: s in best && best[s].1 == i ==> s == batch[i].row.session
  {
    forall s | s in best && best[s].1 == i
      ensures s == batch[i].row.session
    {
      assert BestOf(batch, best, s);
    }
  }

  // ----- all batches -----

  /** Where a sample comes from. */
  datatype Origin = Origin(batch: nat, row: nat)

  /** sample_scores and the other lists that grow alike; and session_to_sample_idx. */
  datatype Samples = Samples(list: seq<Origin>, index: map<string, nat>)

  ghost predicate HasSession(batch: seq<Reading>, s: string) {
    exists i :: 0 <= i < |batch| && batch[i].row.session == s
  }

  /** The session's sample is its row in batch b. */
  ghost predicate SampleIs(samples: Samples, batch: seq<Reading>, b: nat, s: string) {
    && s in samples.index && samples.index[s] < |samples.list|
    && var origin := samples.list[samples.index[s]];
       origin.batch == b && origin.row < |batch| && batch[origin.row].row.session == s && IsSample(batch, origin.row)
  }

  predicate SameSample(before: Samples, after: Samples, s: string) {
    if s in before.index then s in after.index && after.index[s] == before.index[s] else s !in after.index
  }

  /** The sessions of batch b have their samples, and the others have kept theirs. */
  ghost predicate IsAdded(before: Samples, batch: seq<Reading>, b: nat, after: Samples) {
    && before.list <= after.list
    && (forall s {:trigger HasSession(batch, s)} ::
          if HasSession(batch, s) then SampleIs(after, batch, b, s) else SameSample(before, after, s))
  }

  /** The samples of the first j sessions have been appended. */
  ghost predicate Adding(before: Samples, best: Best, sessions: seq<string>, b: nat, j: nat, samples: Samples)
    requires j <= |sessions| && forall k :: 0 <= k < |sessions| ==> sessions[k] in best
  {
    && |samples.list| == |before.list| + j && before.list <= samples.list
    && (forall k {:trigger Appended(before, best, sessions, b, k, samples)} :: 0 <= k < j ==>
          Appended(before, best, sessions, b, k, samples))
    && (forall s {:trigger SameSample(before, samples, s)} :: s !in sessions[..j] ==> SameSample(before, samples, s))
  }

  ghost predicate Appended(before: Samples, best: Best, sessions: seq<string>, b: nat, k: nat, samples: Samples)
    requires k < |sessions| && sessions[k] in best
  {
    && sessions[k] in samples.index && samples.index[sessions[k]] == |before.list| + k < |samples.list|
    && samples.list[|before.list| + k] == Origin(b, best[sessions[k]].1)
  }

  lemma AppendSample(before: Samples, best: Best, sessions: seq<string>, b: nat, j: nat, samples: Samples)
    requires j < |sessions| && forall k :: 0 <= k < |sessions| ==> sessions[k] in best
    requires forall k, l :: 0 <= k < l < |sessions| ==> sessions[k] != sessions[l]
    requires Adding(before, best, sessions, b, j, samples)
    ensures Adding(before, best, sessions, b, j + 1,
                   Samples(samples.list + [Origin(b, best[sessions[j]].1)],
                           samples.index[sessions[j] := |before.list| + j]))
  {
    var next := Samples(samples.list + [Origin(b, best[sessions[j]].1)],
                        samples.index[sessions[j] := |before.list| + j]);
    forall k | 0 <= k <= j
      ensures Appended(before, best, sessions, b, k, next)
    {
      assert k < j ==> Appended(before, best, sessions, b, k, samples);
    }
    assert sessions[..j + 1] == sessions[..j] + [sessions[j]];
    forall s | s !in sessions[..j + 1]
      ensures SameSample(before, next, s)
    {
      assert SameSample(before, samples, s);
    }
  }

  lemma SessionsDiffer(best: Best, sessions: seq<string>, n: nat)
    requires IsSorted(best, sessions, n)
    ensures forall k, l :: 0 <= k < l < |sessions| ==> sessions[k] != sessions[l]
  {
    forall k, l | 0 <= k < l < |sessions|
      ensures sessions[k] != sessions[l]
    {
      assert best[sessions[k]].1 < best[sessions[l]].1;
    }
  }

  lemma BatchIsAdded(before: Samples, batch: seq<Reading>, b: nat, best: Best, sessions: seq<string>, samples: Samples)
    requires Scanned(batch, best) && IsSorted(best, sessions, |batch|)
    requires Adding(before, best, sessions, b, |sessions|, samples)
    ensures IsAdded(before, batch, b, samples)
  {
    assert sessions[..|sessions|] == sessions;
    forall s
      ensures if HasSession(batch, s) then SampleIs(samples, batch, b, s) else SameSample(before, samples, s)
    {
      SessionIsAdded(before, batch, b, best, sessions, samples, s);
    }
  }

  lemma SessionIsAdded(before: Samples, batch: seq<Reading>, b: nat, best: Best, sessions: seq<string>,
                       samples: Samples, s: string)
    requires Scanned(batch, best) && IsSorted(best, sessions, |batch|)
    requires Adding(before, best, sessions, b, |sessions|, samples) && sessions[..|sessions|] == sessions
    ensures if HasSession(batch, s) then SampleIs(samples, batch, b, s) else SameSample(before, samples, s)
  {
    if i :| 0 <= i < |batch| && batch[i].row.session == s {
      assert BestOf(batch, best, s);
      var k :| 0 <= k < |sessions| && sessions[k] == s;
      assert Appended(before, best, sessions, b, k, samples);
    } else {
      assert s in sessions ==> BestOf(batch, best, s);
      assert SameSample(before, samples, s);
    }
  }

  /** The batch's rows of its sessions have been appended to the list, in their order. */
  ghost predicate RowsAdded(before: seq<Origin>, batch: seq<Reading>, b: nat, after: seq<Origin>) {
    && before <= after
    && (forall k :: |before| <= k < |after| ==>
          after[k].batch == b && after[k].row < |batch| && IsSample(batch, after[k].row))
    && (forall k, l :: |before| <= k < l < |after| ==> after[k].row < after[l].row)
    && (forall i :: 0 <= i < |batch| && IsSample(batch, i) ==> Origin(b, i) in after)
  }

  lemma RowsAreAdded(before: Samples, batch: seq<Reading>, b: nat, best: Best, sessions: seq<string>, samples: Samples)
    requires Scanned(batch, best) && IsSorted(best, sessions, |batch|)
    requires Adding(before, best, sessions, b, |sessions|, samples)
    ensures RowsAdded(before.list, batch, b, samples.list)
  {
    var n := |before.list|;
    forall k | 0 <= k < |sessions|
      ensures samples.list[n + k] == Origin(b, best[sessions[k]].1) && BestOf(batch, best, sessions[k])
    {
      assert Appended(before, best, sessions, b, k, samples);
    }
    forall k | n <= k < |samples.list|
      ensures samples.list[k] == Origin(b, best[sessions[k - n]].1) && BestOf(batch, best, sessions[k - n])
    {
      assert k == n + (k - n);
    }
    forall i | 0 <= i < |batch| && IsSample(batch, i)
      ensures Origin(b, i) in samples.list
    {
      var s := batch[i].row.session;
      assert BestOf(batch, best, s);
      SampleIsUnique(batch, i, best[s].1);
      var k :| 0 <= k < |sessions| && sessions[k] == s;
      assert samples.list[n + k] == Origin(b, i);
    }
  }

  /** The loop's body for one batch. */
  method AddBatch(before: Samples, batch: seq<Reading>, b: nat) returns (samples: Samples)
    ensures IsAdded(before, batch, b, samples) && RowsAdded(before.list, batch, b, samples.list)
  {
    var best := ScanBatch(batch);
    var sessions := SortSessions(batch, best);
    SessionsDiffer(best, sessions, |batch|);
    samples := before;
    for j := 0 to |sessions|
      invariant Adding(before, best, sessions, b, j, samples)
    {
      AppendSample(before, best, sessions, b, j, samples);
      samples := Samples(samples.list + [Origin(b, best[sessions[j]].1)],
                         samples.index[sessions[j] := |before.list| + j]);
    }
    BatchIsAdded(before, batch, b, best, sessions, samples);
    RowsAreAdded(before, batch, b, best, sessions, samples);
  }

  /** No batch from lo to hi has the session. */
  ghost predicate Absent(batches: seq<seq<Reading>>, lo: nat, hi: nat, s: string)
    requires hi <= |batches|
  {
    forall c :: lo <= c < hi ==> !HasSession(batches[c], s)
  }

  ghost predicate RightAt(batches: seq<seq<Reading>>, n: nat, samples: Samples, b: nat, s: string)
    requires b < n <= |batches|
  {
    HasSession(batches[b], s) && Absent(batches, b + 1, n, s) ==> SampleIs(samples, batches[b], b, s)
  }

  /** Every session of the first n batches has the sample of the last of them it comes in. */
  ghost predicate Right(batches: seq<seq<Reading>>, n: nat, samples: Samples)
    requires n <= |batches|
  {
    forall b, s {:trigger RightAt(batches, n, samples, b, s)} :: 0 <= b < n ==> RightAt(batches, n, samples, b, s)
  }

  /** A batch gives its own sessions new samples and leaves the others theirs. */
  lemma RightNext(batches: seq<seq<Reading>>, batch: seq<Reading>, before: Samples, after: Samples)
    requires Right(batches, |batches|, before) && IsAdded(before, batch, |batches|, after)
    ensures Right(batches + [batch], |batches| + 1, after)
  {
    var n, m := |batches|, |batches| + 1;
    var longer := batches + [batch];
    assert forall c :: 0 <= c < n ==> longer[c] == batches[c];
    forall b, s | 0 <= b < m
      ensures RightAt(longer, m, after, b, s)
    {
      assert HasSession(batch, s) || !HasSession(batch, s);
      if b < n && HasSession(batches[b], s) && Absent(longer, b + 1, m, s) {
        assert !HasSession(longer[n], s);
        forall c | b + 1 <= c < n
          ensures !HasSession(batches[c], s)
        {
          assert !HasSession(longer[c], s);
        }
        assert Absent(batches, b + 1, n, s);
        assert RightAt(batches, n, before, b, s);
        assert SameSample(before, after, s);
      }
    }
  }

  ghost predicate IsSampleOf(batches: seq<seq<Reading>>, origin: Origin) {
    && origin.batch < |batches| && origin.row < |batches[origin.batch]|
    && IsSample(batches[origin.batch], origin.row)
  }

  predicate Precedes(o: Origin, o': Origin) {
    o.batch < o'.batch || (o.batch == o'.batch && o.row < o'.row)
  }

  /** The list has the rows of all sessions in all batches, in their order. */
  ghost predicate Listed(batches: seq<seq<Reading>>, list: seq<Origin>) {
    && (forall o :: o in list <==> IsSampleOf(batches, o))
    && (forall k, l :: 0 <= k < l < |list| ==> Precedes(list[k], list[l]))
  }

  lemma ListedNext(batches: seq<seq<Reading>>, batch: seq<Reading>, before: seq<Origin>, after: seq<Origin>)
    requires Listed(batches, before) && RowsAdded(before, batch, |batches|, after)
    ensures Listed(batches + [batch], after)
  {
    var longer := batches + [batch];
    forall o
      ensures o in after <==> IsSampleOf(longer, o)
    {
      assert IsSampleOf(batches, o) ==> o in before;
      if o in after {
        var k :| 0 <= k < |after| && after[k] == o;
        assert k < |before| ==> before[k] == o;
      }
      if IsSampleOf(longer, o) && o.batch == |batches| {
        assert o == Origin(|batches|, o.row);
      }
    }
    forall k, l | 0 <= k < l < |after|
      ensures Precedes(after[k], after[l])
    {
      assert k < |before| ==> after[k] == before[k] && before[k] in before;
      assert l < |before| ==> after[l] == before[l];
    }
  }

  /** The loop over the batches; None where int() fails on a key of one of them. */
  method Validate(keys: seq<seq<string>>) returns (batches: seq<seq<Reading>>, samples: Option<Samples>)
    ensures samples.Some? <==>
            forall b, i :: 0 <= b < |keys| && 0 <= i < |keys[b]| ==> Read(keys[b][i]).Some?
    ensures samples.Some? ==> |batches| == |keys| && Right(batches, |keys|, samples.value)
    ensures samples.Some? ==> Listed(batches, samples.value.list)
    ensures samples.Some? ==> forall b :: 0 <= b < |keys| ==> AllRead(Read, keys[b], batches[b])
  {
    batches, samples := ValidateWith(Read, keys);
  }

  method ValidateWith(read: string -> Option<Reading>, keys: seq<seq<string>>)
    returns (batches: seq<seq<Reading>>, samples: Option<Samples>)
    ensures samples.Some? <==>
            forall b, i :: 0 <= b < |keys| && 0 <= i < |keys[b]| ==> read(keys[b][i]).Some?
    ensures samples.Some? ==> |batches| == |keys| && Right(batches, |keys|, samples.value)
    ensures samples.Some? ==> Listed(batches, samples.value.list)
    ensures samples.Some? ==> forall b :: 0 <= b < |keys| ==> AllRead(read, keys[b], batches[b])
  {
    batches := [];
    var collected := Samples([], map[]);
    for b := 0 to |keys|
      invariant |batches| == b && Right(batches, b, collected) && Listed(batches, collected.list)
      invariant forall c :: 0 <= c < b ==> AllRead(read, keys[c], batches[c])
    {
      var batch := ReadKeys(read, keys[b]);
      if batch.None? {
        return batches, None;
      }
      var next := AddBatch(collected, batch.value, b);
      RightNext(batches, batch.value, collected, next);
      ListedNext(batches, batch.value, collected.list, next.list);
      batches, collected := batches + [batch.value], next;
    }
    samples := Some(collected);
  }

  lemma LastBatch(batches: seq<seq<Reading>>, n: nat, s: string) returns (b: nat)
    requires n <= |batches| && exists c :: 0 <= c < n && HasSession(batches[c], s)
    ensures b < n && HasSession(batches[b], s) && Absent(batches, b + 1, n, s)
  {
    b := n - 1;
    if !HasSession(batches[b], s) {
      b := LastBatch(batches, b, s);
    }
  }

  /** The dump's look-ups succeed: the session of every key has a sample, a row of that session in the last batch that
      has it. */
  lemma LookUpSucceeds(batches: seq<seq<Reading>>, samples: Samples, c: nat, i: nat) returns (b: nat)
    requires Right(batches, |batches|, samples) && c < |batches| && i < |batches[c]|
    ensures var s := batches[c][i].row.session;
            c <= b < |batches| && Absent(batches, b + 1, |batches|, s) && SampleIs(samples, batches[b], b, s)
  {
    var s := batches[c][i].row.session;
    assert HasSession(batches[c], s);
    b := LastBatch(batches, |batches|, s);
    assert RightAt(batches, |batches|, samples, b, s);
  }

  /** Where outputs of a session come in one batch only, its sample is the one with the highest index of all. */
  lemma SampleIsLastOutput(batches: seq<seq<Reading>>, samples: Samples, b: nat, i: nat)
    requires Right(batches, |batches|, samples) && b < |batches| && i < |batches[b]|
    requires forall c :: 0 <= c < |batches| && c != b ==> !HasSession(batches[c], batches[b][i].row.session)
    requires forall k :: 0 <= k < |batches[b]| && batches[b][k].row.session == batches[b][i].row.session ==>
               !batches[b][k].plain
    ensures SampleIs(samples, batches[b], b, batches[b][i].row.session)
    ensures var s := batches[b][i].row.session;
            var last := samples.list[samples.index[s]];
            && IsFinal(Rows(batches[b]), last.row)
            && forall c, k :: 0 <= c < |batches| && 0 <= k < |batches[c]| && batches[c][k].row.session == s ==>
                 c == b && batches[b][k].row.index <= batches[b][last.row].row.index
  {
    var s := batches[b][i].row.session;
    assert HasSession(batches[b], s);
    assert RightAt(batches, |batches|, samples, b, s);
    var last := samples.list[samples.index[s]];
    SampleIsFinal(batches[b], last.row);
    forall c, k | 0 <= c < |batches| && 0 <= k < |batches[c]| && batches[c][k].row.session == s
      ensures c == b && batches[b][k].row.index <= batches[b][last.row].row.index
    {
      assert HasSession(batches[c], s);
      assert NotAfter(Rows(batches[b]), k, last.row);
    }
  }
}
