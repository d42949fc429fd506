/** receive_tensor of the kimi engine: the order in which the buckets are broadcast. */
module KimiRounds {

  /** One broadcast: the bucket with this index, the round-th one of the turn-th receiver. */
  datatype Visit = Visit(round: nat, turn: nat, index: nat)

  /** buckets_by_receiver_rank, a dictionary in insertion order; the lists hold the indices of the buckets. */
  datatype Groups = Groups(receivers: seq<nat>, lists: map<nat, seq<nat>>)

  predicate ListOk(receivers: seq<nat>, n: nat, g: Groups, r: nat)
    requires n <= |receivers| && r in g.lists
  {
    && |g.lists[r]| > 0
    && (forall i :: 0 <= i < |g.lists[r]| ==> g.lists[r][i] < n && receivers[g.lists[r][i]] == r)
    && (forall i, j :: 0 <= i < j < |g.lists[r]| ==> g.lists[r][i] < g.lists[r][j])
  }

  predicate InItsList(receivers: seq<nat>, g: Groups, b: nat)
    requires b < |receivers|
  {
    receivers[b] in g.lists && b in g.lists[receivers[b]]
  }

  /** receivers[b] is the receiver of bucket b; the first n buckets are grouped. */
  ghost predicate Grouped(receivers: seq<nat>, n: nat, g: Groups)
    requires n <= |receivers|
  {
    && (forall r {:trigger ListOk(receivers, n, g, r)} :: r in g.lists ==> ListOk(receivers, n, g, r))
    && (forall b {:trigger InItsList(receivers, g, b)} :: 0 <= b < n ==> InItsList(receivers, g, b))
    && (forall r :: r in g.receivers <==> r in g.lists)
    && (forall i, j :: 0 <= i < j < |g.receivers| ==> g.receivers[i] != g.receivers[j])
  }

  function GroupOne(g: Groups, r: nat, b: nat): Groups {
    if r in g.lists then Groups(g.receivers, g.lists[r := g.lists[r] + [b]])
    else Groups(g.receivers + [r], g.lists[r := [b]])
  }

  lemma GroupedList(receivers: seq<nat>, n: nat, g: Groups, r: nat)
    requires n < |receivers| && r in GroupOne(g, receivers[n], n).lists && (r in g.lists ==> ListOk(receivers, n, g, r))
    ensures ListOk(receivers, n + 1, GroupOne(g, receivers[n], n), r)
  {
  }

  lemma GroupedBucket(receivers: seq<nat>, n: nat, g: Groups, b: nat)
    requires b <= n < |receivers| && (b < n ==> InItsList(receivers, g, b))
    ensures InItsList(receivers, GroupOne(g, receivers[n], n), b)
  {
    var g' := GroupOne(g, receivers[n], n);
    if b == n {
      assert g'.lists[receivers[n]][|g'.lists[receivers[n]]| - 1] == n;
    } else if receivers[b] == receivers[n] {
      var i :| 0 <= i < |g.lists[receivers[b]]| && g.lists[receivers[b]][i] == b;
      assert g'.lists[receivers[b]][i] == b;
    }
  }

  lemma GroupStep(receivers: seq<nat>, n: nat, g: Groups)
    requires n < |receivers| && Grouped(receivers, n, g)
    ensures Grouped(receivers, n + 1, GroupOne(g, receivers[n], n))
  {
    var g', m := GroupOne(g, receivers[n], n), n + 1;
    forall r | r in g'.lists
      ensures ListOk(receivers, m, g', r)
    {
      assert r in g.lists ==> ListOk(receivers, n, g, r);
      GroupedList(receivers, n, g, r);
    }
    forall b | 0 <= b < m
      ensures InItsList(receivers, g', b)
    {
      assert b < n ==> InItsList(receivers, g, b);
      GroupedBucket(receivers, n, g, b);
    }
  }

  /** The dictionary after n buckets. */
  function GroupsOf(receivers: seq<nat>, n: nat): Groups
    requires n <= |receivers|
  {
    if n == 0 then Groups([], map[]) else GroupOne(GroupsOf(receivers, n - 1), receivers[n - 1], n - 1)
  }

  lemma {:induction false} GroupsAreGrouped(receivers: seq<nat>, n: nat)
    requires n <= |receivers|
    ensures Grouped(receivers, n, GroupsOf(receivers, n))
  {
    if n > 0 {
      var k := n - 1;
      var before := GroupsOf(receivers, k);
      GroupsAreGrouped(receivers, k);
      GroupStep(receivers, k, before);
      assert GroupsOf(receivers, n) == GroupOne(before, receivers[k], k);
    }
  }

  /** The receivers are in the order of their first buckets. */
  ghost predicate InFirstOrder(g: Groups) {
    forall t, u {:trigger FirstBefore(g, t, u)} :: 0 <= t < u < |g.receivers| ==> FirstBefore(g, t, u)
  }

  predicate FirstBefore(g: Groups, t: nat, u: nat)
    requires t < |g.receivers| && u < |g.receivers|
  {
    && g.receivers[t] in g.lists && |g.lists[g.receivers[t]]| > 0
    && g.receivers[u] in g.lists && |g.lists[g.receivers[u]]| > 0
    && g.lists[g.receivers[t]][0] < g.lists[g.receivers[u]][0]
  }

  lemma {:induction false} ReceiversInOrder(receivers: seq<nat>, n: nat)
    requires n <= |receivers|
    ensures InFirstOrder(GroupsOf(receivers, n))
  {
    if n > 0 {
      var before, r := GroupsOf(receivers, n - 1), receivers[n - 1];
      ReceiversInOrder(receivers, n - 1);
      GroupsAreGrouped(receivers, n - 1);
      var g := GroupOne(before, r, n - 1);
      forall t, u | 0 <= t < u < |g.receivers|
        ensures FirstBefore(g, t, u)
      {
        assert before.receivers[t] in before.receivers;
        assert ListOk(receivers, n - 1, before, before.receivers[t]);
        if u < |before.receivers| {
          assert FirstBefore(before, t, u);
        }
      }
    }
  }

  /** The buckets of one receiver. */
  function Indices(receivers: seq<nat>, r: nat, n: nat): seq<nat>
    requires n <= |receivers|
  {
    if n == 0 then [] else Indices(receivers, r, n - 1) + if receivers[n - 1] == r then [n - 1] else []
  }

  /** The list of a receiver is what is left when the buckets of the others are filtered out. */
  lemma {:induction false} ListsAreIndices(receivers: seq<nat>, r: nat, n: nat)
    requires n <= |receivers|
    ensures var g := GroupsOf(receivers, n);
            if r in g.lists then g.lists[r] == Indices(receivers, r, n) else Indices(receivers, r, n) == []
  {
    if n > 0 {
      ListsAreIndices(receivers, r, n - 1);
    }
  }

  function MaxLen(receivers: seq<nat>, n: nat): nat
    requires n <= |receivers|
  {
    if n == 0 then 0
    else
      var size, max := |Indices(receivers, receivers[n - 1], n)|, MaxLen(receivers, n - 1);
      if size > max then size else max
  }

  lemma {:induction false} MaxLenBounds(receivers: seq<nat>, r: nat, n: nat)
    requires n <= |receivers|
    ensures |Indices(receivers, r, n)| <= MaxLen(receivers, n)
  {
    if n > 0 {
      MaxLenBounds(receivers, r, n - 1);
    }
  }

  /** No list is longer. */
  ghost predicate AllWithin(g: Groups, maxLen: nat) {
    forall r :: r in g.lists ==> |g.lists[r]| <= maxLen
  }

  lemma ListsAreShort(receivers: seq<nat>)
    ensures AllWithin(GroupsOf(receivers, |receivers|), MaxLen(receivers, |receivers|))
  {
    var g := GroupsOf(receivers, |receivers|);
    forall r | r in g.lists
      ensures |g.lists[r]| <= MaxLen(receivers, |receivers|)
    {
      ListsAreIndices(receivers, r, |receivers|);
      MaxLenBounds(receivers, r, |receivers|);
    }
  }

  lemma {:induction false} LongestList(receivers: seq<nat>, n: nat) returns (r: nat)
    requires n <= |receivers| && MaxLen(receivers, n) > 0
    ensures |Indices(receivers, r, n)| == MaxLen(receivers, n)
  {
    if |Indices(receivers, receivers[n - 1], n)| > MaxLen(receivers, n - 1) {
      r := receivers[n - 1];
    } else {
      r := LongestList(receivers, n - 1);
    }
  }

  method GroupBuckets(receivers: seq<nat>) returns (g: Groups, maxLen: nat)
    ensures g == GroupsOf(receivers, |receivers|) && maxLen == MaxLen(receivers, |receivers|)
    ensures Grouped(receivers, |receivers|, g) && InFirstOrder(g)
    ensures AllWithin(g, maxLen) && (maxLen > 0 ==> exists r :: r in g.lists && |g.lists[r]| == maxLen)
  {
    g, maxLen := Groups([], map[]), 0;
    for b := 0 to |receivers|
      invariant g == GroupsOf(receivers, b) && maxLen == MaxLen(receivers, b)
    {
      ListsAreIndices(receivers, receivers[b], b + 1);
      g := GroupOne(g, receivers[b], b);
      if |g.lists[receivers[b]]| > maxLen {
        maxLen := |g.lists[receivers[b]]|;
      }
    }
    GroupsAreGrouped(receivers, |receivers|);
    ReceiversInOrder(receivers, |receivers|);
    ListsAreShort(receivers);
    if maxLen > 0 {
      var r := LongestList(receivers, |receivers|);
      ListsAreIndices(receivers, r, |receivers|);
    }
  }

  predicate Before(x: Visit, y: Visit) {
    x.round < y.round || (x.round == y.round && x.turn < y.turn)
  }

  /** There is such a bucket. */
  predicate IsVisit(g: Groups, v: Visit) {
    && v.turn < |g.receivers| && g.receivers[v.turn] in g.lists
    && v.round < |g.lists[g.receivers[v.turn]]| && g.lists[g.receivers[v.turn]][v.round] == v.index
  }

  /** The visits before a point, in order, all of them and no others. */
  ghost predicate VisitedUpTo(g: Groups, order: seq<Visit>, round: nat, turn: nat) {
    && (forall k :: 0 <= k < |order| ==> IsVisit(g, order[k]) && Before(order[k], Visit(round, turn, 0)))
    && (forall k, l :: 0 <= k < l < |order| ==> Before(order[k], order[l]))
    && (forall v :: IsVisit(g, v) && Before(v, Visit(round, turn, 0)) ==> v in order)
  }

  ghost predicate IsOrder(g: Groups, order: seq<Visit>) {
    && (forall k :: 0 <= k < |order| ==> IsVisit(g, order[k]))
    && (forall k, l :: 0 <= k < l < |order| ==> Before(order[k], order[l]))
    && (forall v :: IsVisit(g, v) ==> v in order)
  }

  ghost predicate IsBroadcast(order: seq<Visit>, b: nat) {
    exists k :: 0 <= k < |order| && order[k].index == b
  }

  /** Every bucket exactly once. */
  ghost predicate Permutes(receivers: seq<nat>, order: seq<Visit>) {
    && (forall k :: 0 <= k < |order| ==> order[k].index < |receivers|)
    && (forall k, l :: 0 <= k < l < |order| ==> order[k].index != order[l].index)
    && (forall b: nat :: b < |receivers| ==> IsBroadcast(order, b))
  }

  /** The turns of one round. */
  function TurnsOf(g: Groups, i: nat, t: nat): seq<Visit>
    requires t <= |g.receivers|
  {
    if t == 0 then []
    else
      TurnsOf(g, i, t - 1) +
      var r := g.receivers[t - 1];
      if r in g.lists && i < |g.lists[r]| then [Visit(i, t - 1, g.lists[r][i])] else []
  }

  function RoundsOf(g: Groups, i: nat): seq<Visit> {
    if i == 0 then [] else RoundsOf(g, i - 1) + TurnsOf(g, i - 1, |g.receivers|)
  }

  /** The broadcasts of the two nested loops, the same on every rank. */
  function OrderOf(receivers: seq<nat>): seq<Visit> {
    RoundsOf(GroupsOf(receivers, |receivers|), MaxLen(receivers, |receivers|))
  }

  /** What the loops have been through before turn t of round i. */
  function Passed(g: Groups, i: nat, t: nat): seq<Visit>
    requires t <= |g.receivers|
  {
    RoundsOf(g, i) + TurnsOf(g, i, t)
  }

  /** How many turns of a round have a bucket. */
  function TurnCount(g: Groups, i: nat, t: nat): nat
    requires t <= |g.receivers|
  {
    if t == 0 then 0
    else
      var r := g.receivers[t - 1];
      TurnCount(g, i, t - 1) + if r in g.lists && i < |g.lists[r]| then 1 else 0
  }

  function RoundCount(g: Groups, i: nat): nat {
    if i == 0 then 0 else RoundCount(g, i - 1) + TurnCount(g, i - 1, |g.receivers|)
  }

  /** gidx before turn t of round i. */
  function Gidx(g: Groups, i: nat, t: nat): nat
    requires t <= |g.receivers|
  {
    RoundCount(g, i) + TurnCount(g, i, t)
  }

  lemma {:induction false} TurnsAreCounted(g: Groups, i: nat, t: nat)
    requires t <= |g.receivers|
    ensures |TurnsOf(g, i, t)| == TurnCount(g, i, t)
  {
    if t > 0 {
      TurnsAreCounted(g, i, t - 1);
    }
  }

  lemma {:induction false} RoundsAreCounted(g: Groups, i: nat)
    ensures |RoundsOf(g, i)| == RoundCount(g, i)
  {
    if i > 0 {
      RoundsAreCounted(g, i - 1);
      TurnsAreCounted(g, i - 1, |g.receivers|);
    }
  }

  lemma PassedIsCounted(g: Groups, i: nat, t: nat)
    requires t <= |g.receivers|
    ensures |Passed(g, i, t)| == Gidx(g, i, t)
  {
    RoundsAreCounted(g, i);
    TurnsAreCounted(g, i, t);
  }

  lemma {:induction false} TurnsExtend(g: Groups, i: nat, t: nat, u: nat)
    requires t <= u <= |g.receivers|
    ensures TurnsOf(g, i, t) <= TurnsOf(g, i, u)
    decreases u
  {
    if t < u {
      TurnsExtend(g, i, t, u - 1);
    }
  }

  lemma {:induction false} RoundsExtend(g: Groups, i: nat, t: nat, n: nat)
    requires i < n && t <= |g.receivers|
    ensures Passed(g, i, t) <= RoundsOf(g, n)
    decreases n
  {
    if i == n - 1 {
      TurnsExtend(g, i, t, |g.receivers|);
    } else {
      RoundsExtend(g, i, t, n - 1);
    }
  }

  lemma PassedNext(g: Groups, i: nat, t: nat)
    requires t < |g.receivers|
    ensures var r := g.receivers[t];
            Passed(g, i, t + 1)
            == Passed(g, i, t) + if r in g.lists && i < |g.lists[r]| then [Visit(i, t, g.lists[r][i])] else []
  {
  }

  lemma PassedRound(g: Groups, i: nat)
    ensures Passed(g, i + 1, 0) == Passed(g, i, |g.receivers|)
  {
  }

  lemma NextTurn(g: Groups, i: nat, t: nat)
    requires t < |g.receivers| && g.receivers[t] in g.lists && VisitedUpTo(g, Passed(g, i, t), i, t)
    ensures VisitedUpTo(g, Passed(g, i, t + 1), i, t + 1)
  {
    PassedNext(g, i, t);
    VisitStep(g, Passed(g, i, t), Passed(g, i, t + 1), i, t);
  }

  lemma RoundDone(g: Groups, i: nat)
    requires VisitedUpTo(g, Passed(g, i, |g.receivers|), i, |g.receivers|)
    ensures VisitedUpTo(g, Passed(g, i + 1, 0), i + 1, 0)
  {
    NextRound(g, Passed(g, i, |g.receivers|), i);
    PassedRound(g, i);
  }

  lemma NothingVisited(g: Groups)
    ensures VisitedUpTo(g, Passed(g, 0, 0), 0, 0)
  {
  }

  lemma {:induction false} PassedIsVisited(receivers: seq<nat>, g: Groups, i: nat, t: nat)
    requires Grouped(receivers, |receivers|, g) && t <= |g.receivers|
    ensures VisitedUpTo(g, Passed(g, i, t), i, t)
    decreases i, t
  {
    if t > 0 {
      PassedIsVisited(receivers, g, i, t - 1);
      assert g.receivers[t - 1] in g.receivers;
      NextTurn(g, i, t - 1);
    } else if i > 0 {
      PassedIsVisited(receivers, g, i - 1, |g.receivers|);
      RoundDone(g, i - 1);
    } else {
      NothingVisited(g);
    }
  }

  lemma RoundsVisitAll(receivers: seq<nat>, g: Groups, maxLen: nat, order: seq<Visit>)
    requires Grouped(receivers, |receivers|, g) && AllWithin(g, maxLen)
    requires order == RoundsOf(g, maxLen)
    ensures IsOrder(g, order) && Permutes(receivers, order)
  {
    PassedIsVisited(receivers, g, maxLen, 0);
    assert Passed(g, maxLen, 0) == order;
    AllVisited(g, order, maxLen);
    EveryBucketOnce(receivers, g, order);
  }

  /** The loops look at nothing that differs between the ranks, so all ranks go through the same broadcasts: every
      bucket once, in the round that is its place among its receiver's buckets. */
  lemma OrderVisitsAll(receivers: seq<nat>)
    ensures Grouped(receivers, |receivers|, GroupsOf(receivers, |receivers|))
    ensures IsOrder(GroupsOf(receivers, |receivers|), OrderOf(receivers)) && Permutes(receivers, OrderOf(receivers))
  {
    var n := |receivers|;
    GroupsAreGrouped(receivers, n);
    ListsAreShort(receivers);
    RoundsVisitAll(receivers, GroupsOf(receivers, n), MaxLen(receivers, n), OrderOf(receivers));
  }

  // ----- the order, from the list of receivers alone -----

  /** Bucket b is at the place in its receiver's list that the number of the earlier buckets of the receiver says. */
  lemma {:induction false} PlaceInList(receivers: seq<nat>, b: nat, n: nat)
    requires b < n <= |receivers|
    ensures var r := receivers[b];
            && |Indices(receivers, r, b)| < |Indices(receivers, r, n)|
            && Indices(receivers, r, n)[|Indices(receivers, r, b)|] == b
  {
    if b < n - 1 {
      PlaceInList(receivers, b, n - 1);
    }
  }

  lemma RoundIsPlace(receivers: seq<nat>, v: Visit)
    requires IsVisit(GroupsOf(receivers, |receivers|), v)
    ensures v.index < |receivers| && receivers[v.index] == GroupsOf(receivers, |receivers|).receivers[v.turn]
    ensures v.round == |Indices(receivers, receivers[v.index], v.index)|
  {
    var n := |receivers|;
    var g := GroupsOf(receivers, n);
    var r := g.receivers[v.turn];
    GroupsAreGrouped(receivers, n);
    assert ListOk(receivers, n, g, r);
    ListsAreIndices(receivers, r, n);
    PlaceInList(receivers, v.index, n);
  }

  /** Of two receivers the one with the earlier turn has the earlier first bucket. */
  lemma TurnIsFirst(receivers: seq<nat>, t: nat, u: nat) returns (i: nat)
    requires t < u < |GroupsOf(receivers, |receivers|).receivers|
    ensures i < |receivers| && receivers[i] == GroupsOf(receivers, |receivers|).receivers[t]
    ensures forall j :: 0 <= j < |receivers| && receivers[j] == GroupsOf(receivers, |receivers|).receivers[u] ==> i < j
  {
    var n := |receivers|;
    var g := GroupsOf(receivers, n);
    GroupsAreGrouped(receivers, n);
    ReceiversInOrder(receivers, n);
    assert FirstBefore(g, t, u);
    assert ListOk(receivers, n, g, g.receivers[t]) && ListOk(receivers, n, g, g.receivers[u]);
    i := g.lists[g.receivers[t]][0];
    forall j | 0 <= j < n && receivers[j] == g.receivers[u]
      ensures i < j
    {
      assert InItsList(receivers, g, j);
    }
  }

  /** Of two buckets the one is broadcast first that fewer buckets of its receiver come before; with equally many, the
      one whose receiver comes first in the list of all buckets. */
  lemma BroadcastsInOrder(receivers: seq<nat>, k: nat, l: nat)
    requires k < l < |OrderOf(receivers)|
    ensures var a, b := OrderOf(receivers)[k].index, OrderOf(receivers)[l].index;
            && a < |receivers| && b < |receivers| && a != b
            && var before, after := Indices(receivers, receivers[a], a), Indices(receivers, receivers[b], b);
               && |before| <= |after|
               && (|before| == |after| ==>
                     exists i :: 0 <= i < |receivers| && receivers[i] == receivers[a]
                                 && forall j :: 0 <= j < |receivers| && receivers[j] == receivers[b] ==> i < j)
  {
    var order := OrderOf(receivers);
    OrderVisitsAll(receivers);
    RoundIsPlace(receivers, order[k]);
    RoundIsPlace(receivers, order[l]);
    assert Before(order[k], order[l]);
    if order[k].round == order[l].round {
      var i := TurnIsFirst(receivers, order[k].turn, order[l].turn);
    }
  }

  lemma AllVisited(g: Groups, order: seq<Visit>, maxLen: nat)
    requires VisitedUpTo(g, order, maxLen, 0) && AllWithin(g, maxLen)
    ensures IsOrder(g, order)
  {
    forall v | IsVisit(g, v)
      ensures v in order
    {
      assert Before(v, Visit(maxLen, 0, 0));
    }
  }

  lemma VisitStep(g: Groups, before: seq<Visit>, after: seq<Visit>, i: nat, t: nat)
    requires t < |g.receivers| && g.receivers[t] in g.lists && VisitedUpTo(g, before, i, t)
    requires var list := g.lists[g.receivers[t]]; after == before + if i < |list| then [Visit(i, t, list[i])] else []
    ensures VisitedUpTo(g, after, i, t + 1)
  {
    forall v | IsVisit(g, v) && Before(v, Visit(i, t + 1, 0))
      ensures v in after
    {
      if !Before(v, Visit(i, t, 0)) {
        assert v == Visit(i, t, v.index) && after[|after| - 1] == v;
      }
    }
  }

  lemma NextRound(g: Groups, order: seq<Visit>, i: nat)
    requires VisitedUpTo(g, order, i, |g.receivers|)
    ensures VisitedUpTo(g, order, i + 1, 0)
  {
  }

  lemma EveryBucketOnce(receivers: seq<nat>, g: Groups, order: seq<Visit>)
    requires Grouped(receivers, |receivers|, g) && IsOrder(g, order)
    ensures Permutes(receivers, order)
  {
    forall k, l | 0 <= k < l < |order|
      ensures order[k].index != order[l].index
    {
      VisitsDiffer(receivers, g, order[k], order[l]);
    }
    forall k | 0 <= k < |order|
      ensures order[k].index < |receivers|
    {
      assert ListOk(receivers, |receivers|, g, g.receivers[order[k].turn]);
    }
    forall b: nat | b < |receivers|
      ensures IsBroadcast(order, b)
    {
      BucketIsBroadcast(receivers, g, order, b);
    }
  }

  lemma BucketIsBroadcast(receivers: seq<nat>, g: Groups, order: seq<Visit>, b: nat)
    requires Grouped(receivers, |receivers|, g) && IsOrder(g, order) && b < |receivers|
    ensures IsBroadcast(order, b)
  {
    var r := receivers[b];
    assert InItsList(receivers, g, b);
    assert r in g.receivers;
    var t :| 0 <= t < |g.receivers| && g.receivers[t] == r;
    var i :| 0 <= i < |g.lists[r]| && g.lists[r][i] == b;
    assert IsVisit(g, Visit(i, t, b));
    var k :| 0 <= k < |order| && order[k] == Visit(i, t, b);
  }

  lemma VisitsDiffer(receivers: seq<nat>, g: Groups, v: Visit, w: Visit)
    requires Grouped(receivers, |receivers|, g) && IsVisit(g, v) && IsVisit(g, w) && Before(v, w)
    ensures v.index != w.index
  {
    assert ListOk(receivers, |receivers|, g, g.receivers[v.turn]);
    assert ListOk(receivers, |receivers|, g, g.receivers[w.turn]);
    if v.turn == w.turn {
      assert v.round < w.round;
    }
  }
}
