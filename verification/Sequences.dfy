/** Lists of lists, and shapes. */
module Sequences {

  /** The lists, one after the other. */
  function Flatten<T>(lists: seq<seq<T>>): seq<T> {
    if lists == [] then [] else Flatten(lists[..|lists| - 1]) + lists[|lists| - 1]
  }

  lemma FlattenSnoc<T>(lists: seq<seq<T>>, last: seq<T>)
    ensures Flatten(lists + [last]) == Flatten(lists) + last
  {
    assert (lists + [last])[..|lists|] == lists;
  }

  lemma {:induction false} FlattenCons<T>(first: seq<T>, rest: seq<seq<T>>)
    ensures Flatten([first] + rest) == first + Flatten(rest)
    decreases |rest|
  {
    if rest == [] {
      FlattenSnoc([], first);
      assert [first] + rest == [] + [first];
    } else {
      var m := |rest| - 1;
      FlattenCons(first, rest[..m]);
      FlattenSnoc([first] + rest[..m], rest[m]);
      assert [first] + rest == ([first] + rest[..m]) + [rest[m]];
      assert (first + Flatten(rest[..m])) + rest[m] == first + Flatten(rest);
    }
  }

  /** Entry j of list i comes behind all entries of the lists before. */
  lemma {:induction false} FlattenAt<T>(lists: seq<seq<T>>, i: nat, j: nat)
    requires i < |lists| && j < |lists[i]|
    ensures |Flatten(lists[..i])| + |lists[i]| <= |Flatten(lists)|
    ensures Flatten(lists)[|Flatten(lists[..i])| + j] == lists[i][j]
    decreases |lists|
  {
    var n := |lists| - 1;
    var front := lists[..n];
    if i < n {
      FlattenAt(front, i, j);
      assert front[..i] == lists[..i];
    }
  }

  /** And there are no other entries. */
  lemma {:induction false} FlattenFrom<T>(lists: seq<seq<T>>, at: nat) returns (i: nat, j: nat)
    requires at < |Flatten(lists)|
    ensures i < |lists| && j < |lists[i]| && at == |Flatten(lists[..i])| + j
    decreases |lists|
  {
    var n := |lists| - 1;
    var front := lists[..n];
    if at < |Flatten(front)| {
      i, j := FlattenFrom(front, at);
      assert front[..i] == lists[..i];
    } else {
      i, j := n, at - |Flatten(front)|;
    }
  }

  lemma Adjacent<T>(s: seq<T>, lo: nat, mid: nat)
    requires lo <= mid <= |s|
    ensures s[lo..mid] + s[mid..] == s[lo..]
  {
  }

  /** The number of elements of a tensor. */
  function Numel(shape: seq<nat>): nat {
    if shape == [] then 1 else shape[0] * Numel(shape[1..])
  }

  /** The product of the dimensions: joining shapes multiplies, a single dimension counts as it is. */
  lemma {:induction false} NumelOfConcat(a: seq<nat>, b: seq<nat>, n: nat)
    ensures Numel([]) == 1 && Numel([n]) == n
    ensures Numel(a + b) == Numel(a) * Numel(b)
  {
    assert Numel([n]) == n * Numel([]);
    if a == [] {
      assert a + b == b;
    } else {
      NumelOfConcat(a[1..], b, n);
      assert (a + b)[1..] == a[1..] + b;
      Associate(a[0], Numel(a[1..]), Numel(b));
    }
  }

  lemma Associate(x: nat, y: nat, z: nat)
    ensures x * (y * z) == (x * y) * z
  {
  }
}
