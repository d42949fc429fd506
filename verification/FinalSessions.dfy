/** compute_advantage_for_multi_trajectories: a session's score is its last output's, given to all its rows. */
module FinalSessions {
  import opened Wrappers
  import opened OutputKeys

  /** The part of a key the scan looks at. */
  datatype Row = Row(session: string, index: int)

  /** None where the source's assertion or int() fails. */
  function ParseRow(key: string): Option<Row> {
    var fields := RSplit(key, 2);
    if |fields| != 3 || ParseInt(fields[2]).None? then None
    else Some(Row(fields[0] + "_" + fields[1], ParseInt(fields[2]).value))
  }

  predicate Parsed(keys: seq<string>, rows: seq<Row>) {
    ParsedWith(ParseRow, keys, rows)
  }

  predicate ParsedWith(parse: string -> Option<Row>, keys: seq<string>, rows: seq<Row>) {
    |rows| == |keys| && forall i :: 0 <= i < |keys| ==> parse(keys[i]) == Some(rows[i])
  }

  lemma RowOfOutput(uid: string, session: nat, index: nat)
    ensures ParseRow(OutputString(uid, session, index)) == Some(Row(SessionKey(uid, session), index))
  {
    SplitUndoesFormat(uid, session, index);
    ParseIntUndoesDecimal(index);
  }

  /** Any key with two underscores at least: what is before the last one is the session, what is behind it the index. */
  lemma {:induction false} ParseRowIs(uid: string, session: string, index: string)
    requires '_' !in session && '_' !in index
    ensures ParseRow(uid + "_" + session + "_" + index) ==
            match ParseInt(index)
            case None => None
            case Some(i) => Some(Row(uid + "_" + session, i))
  {
    var fields := RSplit(uid + "_" + session + "_" + index, 2);
    SplitThree(uid, session, index);
    assert fields == [uid, session, index];
  }

  /** A key with fewer is refused. */
  lemma {:induction false} ShortKeysFail(first: string, second: string)
    requires '_' !in first && '_' !in second
    ensures ParseRow(first) == None && ParseRow(first + "_" + second) == None
  {
    SplitShort(first, second);
  }

  /** Row j is no reason to drop r as its session's final row. */
  predicate NotAfter(rows: seq<Row>, j: nat, r: nat)
    requires j < |rows| && r < |rows|
  {
    rows[j].session == rows[r].session ==>
      rows[j].index < rows[r].index || (rows[j].index == rows[r].index && r <= j)
  }

  /** Row r has its session's highest index, and is the first row that has it. */
  ghost predicate IsFinal(rows: seq<Row>, r: nat) {
    r < |rows| && forall j: nat {:trigger NotAfter(rows, j, r)} :: j < |rows| ==> NotAfter(rows, j, r)
  }

  lemma FinalIsUnique(rows: seq<Row>, r: nat, q: nat)
    requires IsFinal(rows, r) && IsFinal(rows, q) && rows[r].session == rows[q].session
    ensures r == q
  {
    assert NotAfter(rows, r, q) && NotAfter(rows, q, r);
  }

  /** Session and index of the final output do not depend on the order of the rows. */
  lemma FinalIsOrderIndependent(rows: seq<Row>, r: nat, others: seq<Row>, q: nat)
    requires forall row :: row in rows <==> row in others
    requires IsFinal(rows, r) && IsFinal(others, q) && rows[r].session == others[q].session
    ensures rows[r] == others[q]
  {
    assert rows[r] in rows && others[q] in others;
    var j :| 0 <= j < |rows| && rows[j] == others[q];
    var k :| 0 <= k < |others| && others[k] == rows[r];
    assert NotAfter(rows, j, r) && NotAfter(others, k, q);
  }

  // ----- the scan -----

  /** final_sessions, a dictionary in insertion order: for every session its highest index so far and the row that has
      it. */
  datatype Finals = Finals(order: seq<string>, best: map<string, (int, nat)>)

  ghost predicate Best(rows: seq<Row>, f: Finals, s: string)
    requires s in f.best
  {
    var r := f.best[s].1;
    IsFinal(rows, r) && rows[r] == Row(s, f.best[s].0)
  }

  ghost predicate Scanned(rows: seq<Row>, f: Finals) {
    && (forall i :: 0 <= i < |rows| ==> rows[i].session in f.best)
    && (forall s {:trigger Best(rows, f, s)} :: s in f.best ==> Best(rows, f, s))
    && (forall s :: s in f.order <==> s in f.best)
    && (forall i, j :: 0 <= i < j < |f.order| ==> f.order[i] != f.order[j])
    && (forall l, m {:trigger SessionBefore(rows, f.order[l], f.order[m])} :: 0 <= l < m < |f.order| ==>
          SessionBefore(rows, f.order[l], f.order[m]))
  }

  /** Session s comes before session t. */
  predicate SessionBefore(rows: seq<Row>, s: string, t: string) {
    exists i :: 0 <= i < |rows| && rows[i].session == s && forall j :: 0 <= j < |rows| && rows[j].session == t ==> i < j
  }

  lemma StillBefore(rows: seq<Row>, s: string, t: string, row: Row)
    requires SessionBefore(rows, s, t)
    ensures SessionBefore(rows + [row], s, t)
  {
    var i :| 0 <= i < |rows| && rows[i].session == s && forall j :: 0 <= j < |rows| && rows[j].session == t ==> i < j;
    assert (rows + [row])[i] == rows[i];
  }

  lemma NowBefore(rows: seq<Row>, i: nat, row: Row)
    requires i < |rows| && forall j :: 0 <= j < |rows| ==> rows[j].session != row.session
    ensures SessionBefore(rows + [row], rows[i].session, row.session)
  {
    assert (rows + [row])[i] == rows[i];
  }

  lemma OrderStep(rows: seq<Row>, f: Finals, row: Row, l: nat, m: nat)
    requires Scanned(rows, f) && l < m < |See(f, row, |rows|).order|
    ensures SessionBefore(rows + [row], See(f, row, |rows|).order[l], See(f, row, |rows|).order[m])
  {
    if m < |f.order| {
      assert SessionBefore(rows, f.order[l], f.order[m]);
      StillBefore(rows, f.order[l], f.order[m], row);
    } else {
      assert f.order[l] in f.order;
      assert Best(rows, f, f.order[l]);
      NowBefore(rows, f.best[f.order[l]].1, row);
    }
  }

  /** One more row: it replaces its session's entry only with a strictly higher index. */
  function See(f: Finals, row: Row, i: nat): Finals {
    if row.session !in f.best then Finals(f.order + [row.session], f.best[row.session := (row.index, i)])
    else if f.best[row.session].0 < row.index then f.(best := f.best[row.session := (row.index, i)])
    else f
  }

  lemma StillFinal(rows: seq<Row>, r: nat, row: Row)
    requires IsFinal(rows, r) && (row.session == rows[r].session ==> row.index <= rows[r].index)
    ensures IsFinal(rows + [row], r)
  {
    forall j: nat | j < |rows| + 1
      ensures NotAfter(rows + [row], j, r)
    {
      assert j < |rows| ==> NotAfter(rows, j, r);
    }
  }

  lemma NowFinal(rows: seq<Row>, f: Finals, row: Row)
    requires Scanned(rows, f) && (row.session in f.best ==> f.best[row.session].0 < row.index)
    ensures IsFinal(rows + [row], |rows|)
  {
    if row.session in f.best {
      assert Best(rows, f, row.session);
    }
    forall j: nat | j < |rows| + 1
      ensures NotAfter(rows + [row], j, |rows|)
    {
      assert j < |rows| && row.session in f.best ==> NotAfter(rows, j, f.best[row.session].1);
    }
  }

  lemma ScanStep(rows: seq<Row>, f: Finals, row: Row)
    requires Scanned(rows, f)
    ensures Scanned(rows + [row], See(f, row, |rows|))
  {
    var f' := See(f, row, |rows|);
    forall l, m | 0 <= l < m < |f'.order|
      ensures SessionBefore(rows + [row], f'.order[l], f'.order[m])
    {
      OrderStep(rows, f, row, l, m);
    }
    forall s | s in f'.best
      ensures Best(rows + [row], f', s)
    {
      assert s in f.best ==> Best(rows, f, s);
      if s == row.session && (s !in f.best || f.best[s].0 < row.index) {
        NowFinal(rows, f, row);
      } else {
        StillFinal(rows, f.best[s].1, row);
      }
    }
  }

  /** The loop's body. */
  method ScanKey(key: string, rows: seq<Row>, finals: Finals) returns (row: Option<Row>, next: Finals)
    requires Scanned(rows, finals)
    ensures row == ParseRow(key)
    ensures row.Some? ==> Scanned(rows + [row.value], next)
  {
    row, next := ParseRow(key), finals;
    if row.Some? {
      ScanStep(rows, finals, row.value);
      if row.value.session !in finals.best {
        next := Finals(finals.order + [row.value.session], finals.best[row.value.session := (row.value.index, |rows|)]);
      } else if finals.best[row.value.session].0 < row.value.index {
        next := finals.(best := finals.best[row.value.session := (row.value.index, |rows|)]);
      }
    }
  }

  predicate AllParse(keys: seq<string>) {
    forall i :: 0 <= i < |keys| ==> ParseRow(keys[i]).Some?
  }

  lemma ParsedWithSnoc(parse: string -> Option<Row>, keys: seq<string>, i: nat, rows: seq<Row>, row: Row)
    requires i < |keys| && ParsedWith(parse, keys[..i], rows) && parse(keys[i]) == Some(row)
    ensures ParsedWith(parse, keys[..i + 1], rows + [row])
  {
  }

  lemma ParsedSnoc(keys: seq<string>, i: nat, rows: seq<Row>, row: Row)
    requires i < |keys| && Parsed(keys[..i], rows) && ParseRow(keys[i]) == Some(row)
    ensures Parsed(keys[..i + 1], rows + [row])
  {
    ParsedWithSnoc(ParseRow, keys, i, rows, row);
  }

  lemma ParsedAll(keys: seq<string>, rows: seq<Row>)
    requires Parsed(keys[..|keys|], rows)
    ensures Parsed(keys, rows) && AllParse(keys)
  {
    assert keys[..|keys|] == keys;
  }

  method Scan(keys: seq<string>) returns (ok: bool, finals: Finals, rows: seq<Row>)
    ensures ok <==> AllParse(keys)
    ensures ok ==> Parsed(keys, rows) && Scanned(rows, finals)
  {
    finals, rows := Finals([], map[]), [];
    for i := 0 to |keys|
      invariant Parsed(keys[..i], rows) && Scanned(rows, finals)
    {
      var row, next := ScanKey(keys[i], rows, finals);
      if row.None? {
        assert !AllParse(keys);
        return false, finals, rows;
      }
      ParsedSnoc(keys, i, rows, row.value);
      finals, rows := next, rows + [row.value];
    }
    ParsedAll(keys, rows);
    ok := true;
  }

  // ----- the selection -----

  /** finalIndices picks exactly one row of every session, the final one, and local says where each row's is. */
  ghost predicate IsSelection(rows: seq<Row>, finalIndices: seq<nat>, local: seq<nat>) {
    && |local| == |rows|
    && (forall i :: 0 <= i < |rows| ==> local[i] < |finalIndices| && FinalOf(rows, i, finalIndices[local[i]]))
    && (forall l :: 0 <= l < |finalIndices| ==> finalIndices[l] < |rows| && local[finalIndices[l]] == l)
    && (forall l, m :: 0 <= l < m < |finalIndices| ==>
          SessionBefore(rows, rows[finalIndices[l]].session, rows[finalIndices[m]].session))
  }

  /** Row r is the final row of row i's session. */
  ghost predicate FinalOf(rows: seq<Row>, i: nat, r: nat)
    requires i < |rows|
  {
    IsFinal(rows, r) && rows[r].session == rows[i].session
  }

  predicate IsLocal(f: Finals, finalIndices: seq<nat>, toLocal: map<string, nat>, n: nat)
    requires n <= |f.order| && forall s :: s in f.order ==> s in f.best
  {
    && |finalIndices| == n
    && toLocal.Keys == (set s | s in f.order[..n])
    && forall k :: 0 <= k < n ==>
         f.order[k] in toLocal && toLocal[f.order[k]] == k && finalIndices[k] == f.best[f.order[k]].1
  }

  /** The final rows in dictionary order, and each session's place among them. */
  method NumberFinals(f: Finals) returns (finalIndices: seq<nat>, toLocal: map<string, nat>)
    requires forall s :: s in f.order ==> s in f.best
    requires forall i, j :: 0 <= i < j < |f.order| ==> f.order[i] != f.order[j]
    ensures IsLocal(f, finalIndices, toLocal, |f.order|)
  {
    finalIndices, toLocal := [], map[];
    for l := 0 to |f.order|
      invariant IsLocal(f, finalIndices, toLocal, l)
    {
      assert f.order[..l + 1] == f.order[..l] + [f.order[l]];
      finalIndices := finalIndices + [f.best[f.order[l]].1];
      toLocal := toLocal[f.order[l] := |finalIndices| - 1];
    }
  }

  lemma SelectionIsRight(rows: seq<Row>, f: Finals, finalIndices: seq<nat>, toLocal: map<string, nat>, local: seq<nat>)
    requires Scanned(rows, f) && IsLocal(f, finalIndices, toLocal, |f.order|)
    requires |local| == |rows|
    requires forall i :: 0 <= i < |rows| ==> rows[i].session in toLocal && local[i] == toLocal[rows[i].session]
    ensures IsSelection(rows, finalIndices, local)
  {
    forall i | 0 <= i < |rows|
      ensures local[i] < |finalIndices| && FinalOf(rows, i, finalIndices[local[i]])
    {
      assert rows[i].session in f.order;
      var k :| 0 <= k < |f.order| && f.order[k] == rows[i].session;
      assert Best(rows, f, rows[i].session);
    }
    forall l | 0 <= l < |finalIndices|
      ensures finalIndices[l] < |rows| && local[finalIndices[l]] == l
    {
      assert f.order[l] in f.best;
      assert Best(rows, f, f.order[l]);
    }
    forall l, m | 0 <= l < m < |finalIndices|
      ensures SessionBefore(rows, rows[finalIndices[l]].session, rows[finalIndices[m]].session)
    {
      assert SessionBefore(rows, f.order[l], f.order[m]);
      assert Best(rows, f, f.order[l]) && Best(rows, f, f.order[m]);
    }
  }

  method LookUpRows(rows: seq<Row>, toLocal: map<string, nat>) returns (local: seq<nat>)
    requires forall i :: 0 <= i < |rows| ==> rows[i].session in toLocal
    ensures |local| == |rows| && forall i :: 0 <= i < |rows| ==> local[i] == toLocal[rows[i].session]
  {
    local := [];
    for i := 0 to |rows|
      invariant |local| == i
      invariant forall j :: 0 <= j < i ==> local[j] == toLocal[rows[j].session]
    {
      local := local + [toLocal[rows[i].session]];
    }
  }

  lemma EverySessionIsNumbered(rows: seq<Row>, f: Finals, finalIndices: seq<nat>, toLocal: map<string, nat>)
    requires Scanned(rows, f) && IsLocal(f, finalIndices, toLocal, |f.order|)
    ensures forall i :: 0 <= i < |rows| ==> rows[i].session in toLocal
  {
    assert f.order[..|f.order|] == f.order;
    forall i | 0 <= i < |rows|
      ensures rows[i].session in toLocal
    {
      assert rows[i].session in f.order;
    }
  }

  /** The final rows, and for every row the place of its session's. */
  method SelectFinalRows(keys: seq<string>) returns (ok: bool, rows: seq<Row>, finalIndices: seq<nat>, local: seq<nat>)
    ensures ok <==> AllParse(keys)
    ensures ok ==> Parsed(keys, rows) && IsSelection(rows, finalIndices, local)
  {
    var finals;
    ok, finals, rows := Scan(keys);
    if !ok {
      return false, rows, [], [];
    }
    var toLocal;
    finalIndices, toLocal := NumberFinals(finals);
    EverySessionIsNumbered(rows, finals, finalIndices, toLocal);
    local := LookUpRows(rows, toLocal);
    SelectionIsRight(rows, finals, finalIndices, toLocal, local);
  }

  // ----- the scores -----

  /** At every position of a row: the score where the response mask is set, and nothing elsewhere. */
  predicate IsMasked(advantage: seq<real>, score: real, mask: seq<bool>) {
    |advantage| == |mask| && forall t :: 0 <= t < |mask| ==> advantage[t] == if mask[t] then score else 0.0
  }

  /** Every row carries, under its own mask, the score computed for its session's final row. `scores` are the scores
      of the final rows, in whatever way the group-relative advantages were computed from them. */
  method ScatterScores(rows: seq<Row>, masks: seq<seq<bool>>, finalIndices: seq<nat>, local: seq<nat>,
                       scores: seq<real>)
    returns (advantages: seq<seq<real>>)
    requires |masks| == |rows| && |scores| == |finalIndices| && IsSelection(rows, finalIndices, local)
    ensures |advantages| == |rows|
    ensures forall i, l :: 0 <= i < |rows| && 0 <= l < |scores| && FinalOf(rows, i, finalIndices[l]) ==>
              IsMasked(advantages[i], scores[l], masks[i])
  {
    advantages := [];
    for i := 0 to |rows|
      invariant |advantages| == i
      invariant forall j :: 0 <= j < i ==> IsMasked(advantages[j], scores[local[j]], masks[j])
    {
      var score, mask := scores[local[i]], masks[i];
      advantages := advantages + [seq(|mask|, t requires 0 <= t < |mask| => if mask[t] then score else 0.0)];
    }
    forall i, l | 0 <= i < |rows| && 0 <= l < |scores| && FinalOf(rows, i, finalIndices[l])
      ensures IsMasked(advantages[i], scores[l], masks[i])
    {
      FinalIsUnique(rows, finalIndices[l], finalIndices[local[i]]);
    }
  }

  /** The GRPO branch as a whole; `score` stands for the group-relative computation on the selected rows. */
  method BroadcastAdvantages(keys: seq<string>, masks: seq<seq<bool>>, score: seq<nat> -> seq<real>)
    returns (ok: bool, rows: seq<Row>, finalIndices: seq<nat>, advantages: seq<seq<real>>)
    requires |masks| == |keys| && forall indices :: |score(indices)| == |indices|
    ensures ok <==> AllParse(keys)
    ensures ok ==> Parsed(keys, rows) && exists local :: IsSelection(rows, finalIndices, local)
    ensures ok ==> |advantages| == |rows|
    ensures ok ==> forall i, l :: 0 <= i < |rows| && 0 <= l < |finalIndices| && FinalOf(rows, i, finalIndices[l]) ==>
                     IsMasked(advantages[i], score(finalIndices)[l], masks[i])
  {
    var local;
    ok, rows, finalIndices, local := SelectFinalRows(keys);
    if !ok {
      return false, rows, finalIndices, [];
    }
    advantages := ScatterScores(rows, masks, finalIndices, local, score(finalIndices));
  }
}
