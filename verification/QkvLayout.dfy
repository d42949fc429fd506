/** Attention weights: the converter interleaves query, key and value rows group by group (a group is one key-value
    head with the query heads that share it), the mergers take them apart again, whole or in tensor-parallel shards. */
module QkvLayout {
  import opened Arithmetic
  import opened Sequences
  import opened Wrappers

  datatype Qkv<T> = Qkv(q: seq<T>, k: seq<T>, v: seq<T>)

  function Plus<T>(x: Qkv<T>, y: Qkv<T>): Qkv<T> {
    Qkv(x.q + y.q, x.k + y.k, x.v + y.v)
  }

  /** rows == n * size, counted off group by group. */
  predicate Groups(rows: int, n: nat, size: nat)
    decreases n
  {
    if n == 0 then rows == 0 else rows >= size && Groups(rows - size, n - 1, size)
  }

  lemma {:induction false} GroupsIff(rows: int, n: nat, size: nat)
    ensures Groups(rows, n, size) <==> rows == n * size
    decreases n
  {
    if n > 0 {
      GroupsIff(rows - size, n - 1, size);
      Sizes(n, size);
    }
  }

  lemma Sizes(n: nat, a: nat)
    requires n > 0
    ensures n * a == (n - 1) * a + a && n * a >= a
  {
  }

  /** As many groups in each of the three. */
  predicate Whole<T>(w: Qkv<T>, n: nat, a: nat, b: nat) {
    Groups(|w.q|, n, a) && Groups(|w.k|, n, b) && Groups(|w.v|, n, b)
  }

  /** cat([q, k, v], dim=1) of the three views with n groups of a query rows and b key and value rows. */
  function Interleave<T>(w: Qkv<T>, n: nat, a: nat, b: nat): seq<T>
    requires Whole(w, n, a, b)
    decreases n
  {
    if n == 0 then []
    else w.q[..a] + w.k[..b] + w.v[..b] + Interleave(Rest(w, a, b), n - 1, a, b)
  }

  function Rest<T>(w: Qkv<T>, a: nat, b: nat): Qkv<T>
    requires a <= |w.q| && b <= |w.k| && b <= |w.v|
  {
    Qkv(w.q[a..], w.k[b..], w.v[b..])
  }

  /** n groups taken apart, the queries of all groups first, then the keys, then the values. */
  function Split<T>(t: seq<T>, n: nat, a: nat, b: nat): Qkv<T>
    decreases n
  {
    if n == 0 || |t| < a + 2 * b then Qkv([], [], [])
    else Plus(Group(t[..a + 2 * b], a, b), Split(t[a + 2 * b..], n - 1, a, b))
  }

  /** The same for as many groups as there are. */
  function AllGroups<T>(t: seq<T>, a: nat, b: nat): Qkv<T>
    decreases |t|
  {
    if t == [] || |t| < a + 2 * b || a + 2 * b == 0 then Qkv([], [], [])
    else Plus(Group(t[..a + 2 * b], a, b), AllGroups(t[a + 2 * b..], a, b))
  }

  /** chunk.split([a, b, b]) */
  function Group<T>(t: seq<T>, a: nat, b: nat): Qkv<T>
    requires |t| == a + 2 * b
  {
    Qkv(t[..a], t[a..a + b], t[a + b..])
  }

  lemma {:induction false} InterleaveSize<T>(w: Qkv<T>, n: nat, a: nat, b: nat)
    requires Whole(w, n, a, b)
    ensures Groups(|Interleave(w, n, a, b)|, n, a + 2 * b)
    decreases n
  {
    if n > 0 {
      InterleaveSize(Rest(w, a, b), n - 1, a, b);
    }
  }

  lemma {:induction false} FirstGroup<T>(w: Qkv<T>, n: nat, a: nat, b: nat)
    requires Whole(w, n, a, b) && n > 0
    ensures var t := Interleave(w, n, a, b);
            && |t| >= a + 2 * b && Group(t[..a + 2 * b], a, b) == Qkv(w.q[..a], w.k[..b], w.v[..b])
            && t[a + 2 * b..] == Interleave(Rest(w, a, b), n - 1, a, b)
  {
    var first := w.q[..a] + w.k[..b] + w.v[..b];
    var t := Interleave(w, n, a, b);
    assert t[..a + 2 * b] == first;
    assert first[..a] == w.q[..a] && first[a..a + b] == w.k[..b] && first[a + b..] == w.v[..b];
  }

  lemma Rejoin<T>(w: Qkv<T>, a: nat, b: nat)
    requires a <= |w.q| && b <= |w.k| && b <= |w.v|
    ensures Plus(Qkv(w.q[..a], w.k[..b], w.v[..b]), Rest(w, a, b)) == w
  {
  }

  lemma {:induction false} SplitStep<T>(t: seq<T>, n: nat, a: nat, b: nat, first: Qkv<T>, others: Qkv<T>)
    requires n > 0 && |t| >= a + 2 * b
    requires Group(t[..a + 2 * b], a, b) == first && Split(t[a + 2 * b..], n - 1, a, b) == others
    ensures Split(t, n, a, b) == Plus(first, others)
  {
  }

  /** The merger's split undoes the converter's interleave. */
  lemma {:induction false} SplitUndoesInterleave<T>(w: Qkv<T>, n: nat, a: nat, b: nat)
    requires Whole(w, n, a, b)
    ensures Split(Interleave(w, n, a, b), n, a, b) == w
    decreases n
  {
    if n > 0 {
      FirstGroup(w, n, a, b);
      SplitUndoesInterleave(Rest(w, a, b), n - 1, a, b);
      SplitStep(Interleave(w, n, a, b), n, a, b, Qkv(w.q[..a], w.k[..b], w.v[..b]), Rest(w, a, b));
      Rejoin(w, a, b);
    }
  }

  lemma {:induction false} SplitIsWhole<T>(t: seq<T>, n: nat, a: nat, b: nat)
    requires Groups(|t|, n, a + 2 * b)
    ensures Whole(Split(t, n, a, b), n, a, b)
    decreases n
  {
    if n > 0 {
      SplitIsWhole(t[a + 2 * b..], n - 1, a, b);
    }
  }

  lemma {:induction false} RestOfSplit<T>(t: seq<T>, n: nat, a: nat, b: nat)
    requires Groups(|t|, n, a + 2 * b) && n > 0
    ensures var w, first := Split(t, n, a, b), t[..a + 2 * b];
            && |w.q| >= a && |w.k| >= b && |w.v| >= b
            && w.q[..a] + w.k[..b] + w.v[..b] == first && Rest(w, a, b) == Split(t[a + 2 * b..], n - 1, a, b)
  {
    var w, first := Split(t, n, a, b), t[..a + 2 * b];
    assert w == Plus(Group(first, a, b), Split(t[a + 2 * b..], n - 1, a, b));
    assert w.q[..a] == first[..a] && w.k[..b] == first[a..a + b] && w.v[..b] == first[a + b..];
    assert first == first[..a] + first[a..a + b] + first[a + b..];
  }

  // ----- row by row -----

  /** The rows of x from `from` on are those of t from `at` on. */
  predicate SameRows<T(==)>(x: seq<T>, from: nat, t: seq<T>, at: nat, size: nat) {
    from + size <= |x| && at + size <= |t| && x[from..from + size] == t[at..at + size]
  }

  /** From `at` on t has a query rows, b key rows and b value rows, which are those of w from `q` and from `kv` on. */
  predicate GroupIs<T(==)>(t: seq<T>, at: nat, w: Qkv<T>, q: nat, kv: nat, a: nat, b: nat) {
    SameRows(w.q, q, t, at, a) && SameRows(w.k, kv, t, at + a, b) && SameRows(w.v, kv, t, at + a + b, b)
  }

  lemma SliceOfTail<T>(t: seq<T>, s: nat, lo: nat, hi: nat)
    requires lo <= hi && s + hi <= |t|
    ensures t[s..][lo..hi] == t[s + lo..s + hi]
  {
  }

  lemma SliceBehind<T>(x: seq<T>, y: seq<T>, lo: nat, hi: nat)
    requires lo <= hi <= |y|
    ensures (x + y)[|x| + lo..|x| + hi] == y[lo..hi]
  {
  }

  lemma FirstGroupIs<T>(t: seq<T>, rest: Qkv<T>, a: nat, b: nat)
    requires a + 2 * b <= |t|
    ensures GroupIs(t, 0, Plus(Group(t[..a + 2 * b], a, b), rest), 0, 0, a, b)
  {
    var first := Group(t[..a + 2 * b], a, b);
    assert (first.q + rest.q)[..a] == first.q == t[..a];
    assert (first.k + rest.k)[..b] == first.k == t[a..a + b];
    assert (first.v + rest.v)[..b] == first.v == t[a + b..a + 2 * b];
  }

  lemma Shifted<T>(t: seq<T>, s: nat, at: nat, x: seq<T>, y: seq<T>, from: nat, size: nat)
    requires s <= |t| && SameRows(y, from, t[s..], at, size)
    ensures SameRows(x + y, |x| + from, t, s + at, size)
  {
    SliceOfTail(t, s, at, at + size);
    SliceBehind(x, y, from, from + size);
  }

  lemma ShiftedGroupIs<T>(t: seq<T>, s: nat, at: nat, first: Qkv<T>, rest: Qkv<T>, q: nat, kv: nat, a: nat, b: nat)
    requires s <= |t| && |first.q| == a && |first.k| == |first.v| == b && GroupIs(t[s..], at, rest, q, kv, a, b)
    ensures GroupIs(t, s + at, Plus(first, rest), a + q, b + kv, a, b)
  {
    Shifted(t, s, at, first.q, rest.q, q, a);
    Shifted(t, s, at + a, first.k, rest.k, kv, b);
    Shifted(t, s, at + a + b, first.v, rest.v, kv, b);
    assert s + (at + a) == s + at + a && s + (at + a + b) == s + at + a + b;
  }

  /** The group `step` in t without its first s rows is the group `now` in all of t; a place is for t, the queries and
      the keys. */
  lemma NextGroup<T>(t: seq<T>, s: nat, w: Qkv<T>, first: Qkv<T>, rest: Qkv<T>, a: nat, b: nat,
                     step: (nat, nat, nat), now: (nat, nat, nat))
    requires s <= |t| && w == Plus(first, rest) && |first.q| == a && |first.k| == |first.v| == b
    requires GroupIs(t[s..], step.0, rest, step.1, step.2, a, b)
    requires now.0 == s + step.0 && now.1 == a + step.1 && now.2 == b + step.2
    ensures GroupIs(t, now.0, w, now.1, now.2, a, b)
  {
    ShiftedGroupIs(t, s, step.0, first, rest, step.1, step.2, a, b);
  }

  function Places(i: nat, a: nat, b: nat): (nat, nat, nat) {
    (Behind(i, a + 2 * b), Behind(i, a), Behind(i, b))
  }

  /** i * size, group by group. */
  function Behind(i: nat, size: nat): nat {
    if i == 0 then 0 else size + Behind(i - 1, size)
  }

  lemma {:induction false} BehindIs(i: nat, size: nat)
    ensures Behind(i, size) == i * size
  {
    if i > 0 {
      BehindIs(i - 1, size);
      Sizes(i, size);
    }
  }

  lemma {:induction false} GroupFrom<T>(t: seq<T>, n: nat, a: nat, b: nat, i: nat, at: (nat, nat, nat))
    requires Groups(|t|, n, a + 2 * b) && i < n && at == Places(i, a, b)
    ensures GroupIs(t, at.0, Split(t, n, a, b), at.1, at.2, a, b)
    decreases n
  {
    var s := a + 2 * b;
    var first, rest := Group(t[..s], a, b), Split(t[s..], n - 1, a, b);
    SplitStep(t, n, a, b, first, rest);
    if i == 0 {
      FirstGroupIs(t, rest, a, b);
    } else {
      var before := Places(i - 1, a, b);
      GroupFrom(t[s..], n - 1, a, b, i - 1, before);
      NextGroup(t, s, Split(t, n, a, b), first, rest, a, b, before, at);
    }
  }

  /** Group i, query rows, then key rows, then value rows, comes behind i groups in t and behind i groups in each of the
      three. */
  lemma {:induction false} SplitGroup<T>(t: seq<T>, n: nat, a: nat, b: nat, i: nat)
    requires Groups(|t|, n, a + 2 * b) && i < n
    ensures GroupAt(t, Split(t, n, a, b), i, a, b)
  {
    GroupFrom(t, n, a, b, i, Places(i, a, b));
    BehindIs(i, a + 2 * b);
    BehindIs(i, a);
    BehindIs(i, b);
  }

  predicate GroupAt<T(==)>(t: seq<T>, w: Qkv<T>, i: nat, a: nat, b: nat) {
    GroupIs(t, i * (a + 2 * b), w, i * a, i * b, a, b)
  }

  /** w is t with its n groups taken apart. */
  ghost predicate GroupsAre<T>(t: seq<T>, w: Qkv<T>, n: nat, a: nat, b: nat) {
    && |t| == n * (a + 2 * b) && |w.q| == n * a && |w.k| == n * b && |w.v| == n * b
    && forall i {:trigger GroupAt(t, w, i, a, b)} :: 0 <= i < n ==> GroupAt(t, w, i, a, b)
  }

  lemma {:induction false} SplitGroups<T>(t: seq<T>, n: nat, a: nat, b: nat)
    requires Groups(|t|, n, a + 2 * b)
    ensures GroupsAre(t, Split(t, n, a, b), n, a, b)
  {
    GroupsIff(|t|, n, a + 2 * b);
    SplitSizes(t, n, a, b);
    forall i | 0 <= i < n
      ensures GroupAt(t, Split(t, n, a, b), i, a, b)
    {
      SplitGroup(t, n, a, b, i);
    }
  }

  lemma {:induction false} SplitSizes<T>(t: seq<T>, n: nat, a: nat, b: nat)
    requires Groups(|t|, n, a + 2 * b)
    ensures var w := Split(t, n, a, b); |w.q| == n * a && |w.k| == n * b && |w.v| == n * b
  {
    var w := Split(t, n, a, b);
    SplitIsWhole(t, n, a, b);
    GroupsIff(|w.q|, n, a);
    GroupsIff(|w.k|, n, b);
    GroupsIff(|w.v|, n, b);
  }

  /** What the converter writes: the i-th group of each of the three, one behind the other. */
  lemma {:induction false} InterleaveGroup<T>(w: Qkv<T>, n: nat, a: nat, b: nat, i: nat)
    requires Whole(w, n, a, b) && i < n
    ensures GroupAt(Interleave(w, n, a, b), w, i, a, b)
    ensures |Interleave(w, n, a, b)| == n * (a + 2 * b)
  {
    var t := Interleave(w, n, a, b);
    InterleaveSize(w, n, a, b);
    GroupsIff(|t|, n, a + 2 * b);
    SplitUndoesInterleave(w, n, a, b);
    SplitGroup(t, n, a, b, i);
  }

  lemma {:induction false} InterleaveStep<T>(w: Qkv<T>, n: nat, a: nat, b: nat, first: seq<T>, others: seq<T>)
    requires Whole(w, n, a, b) && n > 0
    requires w.q[..a] + w.k[..b] + w.v[..b] == first && Interleave(Rest(w, a, b), n - 1, a, b) == others
    ensures Interleave(w, n, a, b) == first + others
  {
  }

  lemma CutInTwo<T>(t: seq<T>, i: nat)
    requires i <= |t|
    ensures t[..i] + t[i..] == t
  {
  }

  lemma {:induction false} InterleaveOfSplit<T>(t: seq<T>, n: nat, a: nat, b: nat)
    requires Groups(|t|, n, a + 2 * b) && n > 0 && Whole(Split(t, n, a, b), n, a, b)
    requires Whole(Split(t[a + 2 * b..], n - 1, a, b), n - 1, a, b)
    ensures Interleave(Split(t, n, a, b), n, a, b)
         == t[..a + 2 * b] + Interleave(Split(t[a + 2 * b..], n - 1, a, b), n - 1, a, b)
  {
    RestOfSplit(t, n, a, b);
    InterleaveStep(Split(t, n, a, b), n, a, b, t[..a + 2 * b],
                   Interleave(Split(t[a + 2 * b..], n - 1, a, b), n - 1, a, b));
  }

  /** And the other way round: no two layouts of the same rows are confused. */
  lemma {:induction false} InterleaveUndoesSplit<T>(t: seq<T>, n: nat, a: nat, b: nat)
    requires Groups(|t|, n, a + 2 * b)
    ensures Whole(Split(t, n, a, b), n, a, b) && Interleave(Split(t, n, a, b), n, a, b) == t
    decreases n
  {
    SplitIsWhole(t, n, a, b);
    if n > 0 {
      InterleaveUndoesSplit(t[a + 2 * b..], n - 1, a, b);
      InterleaveOfSplit(t, n, a, b);
      CutInTwo(t, a + 2 * b);
    }
  }

  // ----- the loops -----

  lemma ChunkSize(n: nat, s: nat)
    requires n > 0
    ensures CeilDiv(n * s, n) == s
  {
    DivUnique(s, n, n - 1);
  }

  /** The chunks of the given size, all split and put together; None where a chunk has not a + 2 * b rows. */
  function SplitPieces<T>(t: seq<T>, size: nat, a: nat, b: nat): Option<Qkv<T>>
    decreases |t|
  {
    if t == [] then Some(Qkv([], [], []))
    else
      var chunk := if size <= |t| then t[..size] else t;
      if |chunk| != a + 2 * b || chunk == [] then None
      else match SplitPieces(t[|chunk|..], size, a, b)
           case None => None
           case Some(rest) => Some(Plus(Group(chunk, a, b), rest))
  }

  lemma {:induction false} SplitOfNothing<T>(n: nat, a: nat, b: nat)
    ensures Split<T>([], n, a, b) == Qkv([], [], [])
    decreases n
  {
    if n > 0 && a == 0 && b == 0 {
      var none: seq<T> := [];
      SplitOfNothing<T>(n - 1, a, b);
      assert none[..0] == none && none[0..] == none && none[0..0] == none;
      assert Group(none, 0, 0) == Qkv([], [], []);
    }
  }

  lemma {:induction false} AllGroupsIsSplit<T>(t: seq<T>, n: nat, a: nat, b: nat)
    requires Groups(|t|, n, a + 2 * b)
    ensures AllGroups(t, a, b) == Split(t, n, a, b)
    decreases n
  {
    if t == [] {
      SplitOfNothing<T>(n, a, b);
    } else {
      NotAllEmpty(|t|, n, a + 2 * b);
      AllGroupsIsSplit(t[a + 2 * b..], n - 1, a, b);
    }
  }

  lemma {:induction false} EvenPieces<T>(t: seq<T>, n: nat, a: nat, b: nat)
    requires Groups(|t|, n, a + 2 * b)
    ensures SplitPieces(t, a + 2 * b, a, b) == Some(Split(t, n, a, b))
    decreases n
  {
    if t == [] {
      SplitOfNothing<T>(n, a, b);
    } else {
      NotAllEmpty(|t|, n, a + 2 * b);
      EvenPieces(t[a + 2 * b..], n - 1, a, b);
    }
  }

  lemma {:induction false} NotAllEmpty(rows: nat, n: nat, size: nat)
    requires Groups(rows, n, size) && rows > 0
    ensures size > 0
    decreases n
  {
    if n > 0 && rows - size > 0 {
      NotAllEmpty(rows - size, n - 1, size);
    }
  }

  lemma {:induction false} OtherPieces<T>(t: seq<T>, size: nat, a: nat, b: nat)
    requires t != [] && a + 2 * b != size <= |t|
    ensures SplitPieces(t, size, a, b).None?
  {
  }

  lemma ModSub(x: nat, d: nat)
    requires 0 < d <= x
    ensures (x - d) % d == x % d
  {
    var q, r := x / d, x % d;
    assert x == q * d + r;
    MulLess(0, q, d);
    MulStep(q, d);
    DivIs(x - d, q - 1, d, r);
  }

  /** The last piece is too short. */
  lemma {:induction false} RaggedPieces<T>(t: seq<T>, size: nat, a: nat, b: nat)
    requires size == a + 2 * b > 0 && |t| % size != 0
    ensures SplitPieces(t, size, a, b).None?
    decreases |t|
  {
    if |t| >= size {
      ModSub(|t|, size);
      RaggedPieces(t[size..], size, a, b);
    }
  }

  /** Pieces of the right size. */
  lemma {:induction false} RightPieces<T>(t: seq<T>, size: nat, a: nat, b: nat)
    requires size == a + 2 * b > 0
    ensures SplitPieces(t, size, a, b) == if |t| % size == 0 then Some(AllGroups(t, a, b)) else None
  {
    if |t| % size == 0 {
      ExactGroups(|t|, size);
      EvenPieces(t, |t| / size, a, b);
      AllGroupsIsSplit(t, |t| / size, a, b);
    } else {
      RaggedPieces(t, size, a, b);
    }
  }

  lemma Exactly(x: nat, n: nat)
    requires n > 0 && x % n == 0
    ensures x == n * (x / n)
  {
  }

  lemma ExactGroups(rows: nat, size: nat)
    requires size > 0 && rows % size == 0
    ensures Groups(rows, rows / size, size)
  {
    Exactly(rows, size);
    GroupsIff(rows, rows / size, size);
  }

  /** tensor.chunk(n), each chunk split: a tensor without rows has n chunks without rows. */
  function SplitInto<T>(t: seq<T>, n: nat, a: nat, b: nat): Option<Qkv<T>>
    requires n > 0
  {
    if t == [] && a + 2 * b > 0 then None else SplitPieces(t, CeilDiv(|t|, n), a, b)
  }

  /** The chunks of so many rows all have the given size. */
  predicate ChunksFit(rows: nat, n: nat, size: nat)
    requires n > 0
  {
    CeilDiv(rows, n) == size && (rows > 0 ==> size > 0 && rows % size == 0)
  }

  lemma NoRows(n: nat)
    requires n > 0
    ensures CeilDiv(0, n) == 0
  {
    DivUnique(0, n, n - 1);
  }

  /** One tensor is split if and only if its chunks have the size that is asked for. */
  lemma {:induction false} SplitIntoIff<T>(t: seq<T>, n: nat, a: nat, b: nat)
    requires n > 0
    ensures SplitInto(t, n, a, b) == if ChunksFit(|t|, n, a + 2 * b) then Some(AllGroups(t, a, b)) else None
  {
    if t == [] {
      NoRows(n);
    } else {
      CeilDivBounds(|t|, n);
      if CeilDiv(|t|, n) == a + 2 * b {
        RightPieces(t, a + 2 * b, a, b);
      } else {
        OtherPieces(t, CeilDiv(|t|, n), a, b);
      }
    }
  }

  lemma PlusIsAssociative<T>(x: Qkv<T>, y: Qkv<T>, z: Qkv<T>)
    ensures Plus(Plus(x, y), z) == Plus(x, Plus(y, z))
    ensures Plus(x, Qkv([], [], [])) == x == Plus(Qkv([], [], []), x)
  {
    assert Plus(Plus(x, y), z).q == Plus(x, Plus(y, z)).q;
    assert Plus(Plus(x, y), z).k == Plus(x, Plus(y, z)).k;
    assert Plus(Plus(x, y), z).v == Plus(x, Plus(y, z)).v;
  }

  function After<T>(parts: Qkv<T>, more: Option<Qkv<T>>): Option<Qkv<T>> {
    if more.None? then None else Some(Plus(parts, more.value))
  }

  lemma AfterStep<T>(parts: Qkv<T>, group: Qkv<T>, more: Option<Qkv<T>>)
    ensures After(Plus(parts, group), more) == After(parts, After(group, more))
    ensures After(Qkv([], [], []), more) == more
    ensures After(parts, Some(Qkv([], [], []))) == Some(parts)
  {
    PlusIsAssociative(parts, group, if more.Some? then more.value else parts);
    PlusIsAssociative(if more.Some? then more.value else parts, group, parts);
  }

  /** One tensor of the mergers' inner loop: tensor.chunk(n), each chunk split into a, b and b rows. */
  method SplitChunks<T>(t: seq<T>, n: nat, a: nat, b: nat) returns (w: Option<Qkv<T>>)
    requires n > 0
    ensures w == SplitInto(t, n, a, b)
  {
    if t == [] {
      return if a + 2 * b > 0 then None else Some(Qkv([], [], []));
    }
    CeilDivBounds(|t|, n);
    var size := CeilDiv(|t|, n);
    var parts, rest := Qkv([], [], []), t;
    AfterStep(parts, parts, SplitPieces(t, size, a, b));
    while rest != []
      invariant rest != [] ==> size > 0
      invariant After(parts, SplitPieces(rest, size, a, b)) == SplitPieces(t, size, a, b)
      decreases |rest|
    {
      var chunk := if size <= |rest| then rest[..size] else rest;
      if |chunk| != a + 2 * b {
        return None;
      }
      AfterStep(parts, Group(chunk, a, b), SplitPieces(rest[|chunk|..], size, a, b));
      parts := Plus(parts, Group(chunk, a, b));
      rest := rest[|chunk|..];
    }
    AfterStep(parts, parts, None);
    w := Some(parts);
  }

  // ----- one tensor -----

  lemma {:induction false} EvenTensor<T>(t: seq<T>, n: nat, a: nat, b: nat)
    requires n > 0 && Groups(|t|, n, a + 2 * b)
    ensures SplitInto(t, n, a, b) == Some(Split(t, n, a, b))
  {
    GroupsIff(|t|, n, a + 2 * b);
    ChunkSize(n, a + 2 * b);
    EvenPieces(t, n, a, b);
  }

  lemma {:induction false} UnevenTensor<T>(t: seq<T>, n: nat, a: nat, b: nat)
    requires n > 0 && t != [] && CeilDiv(|t|, n) > a + 2 * b
    ensures SplitInto(t, n, a, b).None?
  {
    SplitIntoIff(t, n, a, b);
  }

  lemma EvenHeads(g: nat, d: nat, n: nat)
    requires n > 0
    ensures QueryRows(n * d, g, n) == g * d && (n * d) / n == d && (n * d) % n == 0
    ensures n * (g * d + 2 * d) == (n * d) * (g + 2)
    ensures KvRows(n * (g * d + 2 * d), g) == n * d && n * (g * d + 2 * d) % (g + 2) == 0
  {
    assert (n * d) * g == (g * d) * n + 0;
    DivUnique(g * d, n, 0);
    assert n * d == d * n + 0;
    DivUnique(d, n, 0);
    Factor(g, d, n);
    DivUnique(n * d, g + 2, 0);
  }

  lemma Factor(g: nat, d: nat, n: nat)
    ensures n * (g * d + 2 * d) == (n * d) * (g + 2)
  {
    assert g * d + 2 * d == d * (g + 2);
  }

  lemma UnevenHeads(rows: nat, g: nat, kvSize: nat, n: nat)
    requires n > 0 && rows == kvSize * (g + 2) && kvSize % n != 0
    ensures CeilDiv(rows, n) > QueryRows(kvSize, g, n) + 2 * (kvSize / n)
  {
    var x, y, c := QueryRows(kvSize, g, n), kvSize / n, CeilDiv(rows, n);
    assert x * n <= kvSize * g;
    assert y * n < kvSize;
    assert (x + 2 * y) * n == x * n + 2 * (y * n);
    assert kvSize * (g + 2) == kvSize * g + 2 * kvSize;
    assert rows + n - 1 == c * n + (rows + n - 1) % n;
    MulLess(x + 2 * y, c, n);
  }

  /** num_q_per_kv */
  function Sharing(heads: nat, kvHeads: nat): nat
    requires kvHeads > 0
  {
    heads / kvHeads
  }

  /** num_query_groups_per_partition */
  function PerShard(kvHeads: nat, shards: nat): nat
    requires shards > 0
  {
    kvHeads / shards
  }

  /** kv_size */
  function KvRows(rows: nat, g: nat): nat {
    rows / (g + 2)
  }

  /** The first entry of split_size; the other two are kv_size // n. */
  function QueryRows(kvSize: nat, g: nat, n: nat): nat
    requires n > 0
  {
    kvSize * g / n
  }

  /** The sizes of one tensor add up: whole numbers of query heads, of rows per head and of rows per group. */
  predicate SizesFit(rows: nat, heads: nat, kvHeads: nat) {
    kvHeads > 0 && heads % kvHeads == 0 && EvenRows(rows, Sharing(heads, kvHeads), kvHeads)
  }

  predicate EvenRows(rows: nat, g: nat, n: nat)
    requires n > 0
  {
    rows % (g + 2) == 0 && KvRows(rows, g) % n == 0
  }

  /** The groups of a tensor whose sizes add up. */
  function TensorSplit<T>(t: seq<T>, g: nat, n: nat): Qkv<T>
    requires n > 0
  {
    var d := KvRows(|t|, g) / n;
    Split(t, n, g * d, d)
  }

  lemma KvRowsBack(rows: nat, g: nat)
    requires rows % (g + 2) == 0
    ensures rows == KvRows(rows, g) * (g + 2)
  {
  }

  /** A tensor whose key rows are n * d is split into groups of g * d and d rows. */
  lemma {:induction false} EvenKvRows<T>(t: seq<T>, g: nat, d: nat, n: nat)
    requires n > 0 && |t| == (n * d) * (g + 2)
    ensures SplitInto(t, n, QueryRows(n * d, g, n), (n * d) / n) == Some(Split(t, n, g * d, d))
  {
    EvenHeads(g, d, n);
    GroupsIff(|t|, n, g * d + 2 * d);
    EvenTensor(t, n, g * d, d);
  }

  lemma {:induction false} UnevenKvRows<T>(t: seq<T>, g: nat, kvSize: nat, n: nat)
    requires n > 0 && |t| == kvSize * (g + 2) && kvSize % n != 0
    ensures SplitInto(t, n, QueryRows(kvSize, g, n), kvSize / n).None?
  {
    UnevenHeads(|t|, g, kvSize, n);
    MulMono(1, g + 2, kvSize);
    UnevenTensor(t, n, QueryRows(kvSize, g, n), kvSize / n);
  }

  lemma {:induction false} TensorIs<T>(t: seq<T>, g: nat, n: nat)
    requires n > 0 && |t| % (g + 2) == 0
    ensures var kvSize := KvRows(|t|, g);
            SplitInto(t, n, QueryRows(kvSize, g, n), kvSize / n)
            == if EvenRows(|t|, g, n) then Some(TensorSplit(t, g, n)) else None
  {
    var kvSize := KvRows(|t|, g);
    KvRowsBack(|t|, g);
    if kvSize % n == 0 {
      Exactly(kvSize, n);
      EvenKvRows(t, g, kvSize / n, n);
    } else {
      UnevenKvRows(t, g, kvSize, n);
    }
  }

  lemma {:induction false} TensorGroups<T>(t: seq<T>, g: nat, n: nat)
    requires n > 0 && EvenRows(|t|, g, n)
    ensures var d := |t| / (g + 2) / n; GroupsAre(t, TensorSplit(t, g, n), n, g * d, d)
  {
    var d := KvRows(|t|, g) / n;
    KvRowsBack(|t|, g);
    Exactly(KvRows(|t|, g), n);
    EvenHeads(g, d, n);
    GroupsIff(|t|, n, g * d + 2 * d);
    SplitGroups(t, n, g * d, d);
  }

  /** The qkv branch of _split_tensors succeeds exactly when the sizes add up, and then takes the groups apart. */
  method SplitTensor<T>(t: seq<T>, heads: nat, kvHeads: nat) returns (w: Option<Qkv<T>>)
    ensures w.Some? <==> SizesFit(|t|, heads, kvHeads)
    ensures w.Some? ==> w.value == TensorSplit(t, Sharing(heads, kvHeads), kvHeads)
    ensures w.Some? ==> kvHeads > 0 && var d := |t| / (heads / kvHeads + 2) / kvHeads;
                                       GroupsAre(t, w.value, kvHeads, heads / kvHeads * d, d)
  {
    if kvHeads == 0 || heads % kvHeads != 0 {
      return None;
    }
    var g := Sharing(heads, kvHeads);
    if |t| % (g + 2) != 0 {
      return None;
    }
    var kvSize := KvRows(|t|, g);
    w := SplitChunks(t, kvHeads, QueryRows(kvSize, g, kvHeads), kvSize / kvHeads);
    TensorIs(t, g, kvHeads);
    if w.Some? {
      TensorGroups(t, g, kvHeads);
    }
  }

  /** The three projections of a layer with heads of d rows. */
  predicate Projections<T>(w: Qkv<T>, heads: nat, kvHeads: nat, d: nat) {
    kvHeads > 0 && heads % kvHeads == 0 && |w.q| == heads * d && |w.k| == kvHeads * d && |w.v| == kvHeads * d
  }

  lemma {:induction false} ProjectionsAreWhole<T>(w: Qkv<T>, heads: nat, kvHeads: nat, d: nat)
    requires Projections(w, heads, kvHeads, d)
    ensures Whole(w, kvHeads, Sharing(heads, kvHeads) * d, d)
  {
    var g := Sharing(heads, kvHeads);
    Reassociate(kvHeads, g, d);
    GroupsIff(|w.q|, kvHeads, g * d);
    GroupsIff(|w.k|, kvHeads, d);
  }

  lemma Reassociate(x: nat, y: nat, z: nat)
    ensures x * (y * z) == (x * y) * z
  {
  }

  /** What the converter writes, for any number of heads the key-value heads divide, the merger reads back. */
  lemma {:induction false} MergerUndoesConverter<T>(w: Qkv<T>, heads: nat, kvHeads: nat, d: nat)
    requires Projections(w, heads, kvHeads, d)
    ensures Whole(w, kvHeads, Sharing(heads, kvHeads) * d, d)
    ensures var t := Interleave(w, kvHeads, Sharing(heads, kvHeads) * d, d);
            SizesFit(|t|, heads, kvHeads) && TensorSplit(t, Sharing(heads, kvHeads), kvHeads) == w
  {
    var g := Sharing(heads, kvHeads);
    ProjectionsAreWhole(w, heads, kvHeads, d);
    InterleaveSize(w, kvHeads, g * d, d);
    var t := Interleave(w, kvHeads, g * d, d);
    GroupsIff(|t|, kvHeads, g * d + 2 * d);
    EvenHeads(g, d, kvHeads);
    SplitUndoesInterleave(w, kvHeads, g * d, d);
  }

  // ----- shards -----

  lemma CutInFirst<T>(t: seq<T>, u: seq<T>, s: nat)
    requires s <= |t|
    ensures (t + u)[..s] == t[..s] && (t + u)[s..] == t[s..] + u
  {
  }

  lemma NothingBefore<T>(t: seq<T>, u: seq<T>, w: Qkv<T>)
    requires t == []
    ensures t + u == u && Plus(Qkv([], [], []), w) == w
  {
  }

  /** One more group in front. */
  lemma {:induction false} ConcatStep<T>(t: seq<T>, u: seq<T>, m: nat, n: nat, a: nat, b: nat, first: Qkv<T>,
                                         mid: Qkv<T>, last: Qkv<T>)
    requires m > 0 && |t| >= a + 2 * b && first == Group(t[..a + 2 * b], a, b)
    requires mid == Split(t[a + 2 * b..], m - 1, a, b)
    requires Split(t[a + 2 * b..] + u, m - 1 + n, a, b) == Plus(mid, last)
    ensures Split(t + u, m + n, a, b) == Plus(Split(t, m, a, b), last)
  {
    CutInFirst(t, u, a + 2 * b);
    SplitStep(t, m, a, b, first, mid);
    SplitStep(t + u, m + n, a, b, first, Plus(mid, last));
    PlusIsAssociative(first, mid, last);
  }

  lemma {:induction false} SplitOfConcat<T>(t: seq<T>, u: seq<T>, m: nat, n: nat, a: nat, b: nat)
    requires Groups(|t|, m, a + 2 * b)
    ensures Split(t + u, m + n, a, b) == Plus(Split(t, m, a, b), Split(u, n, a, b))
    decreases m
  {
    if m == 0 {
      NothingBefore(t, u, Split(u, n, a, b));
    } else {
      var s := a + 2 * b;
      SplitOfConcat(t[s..], u, m - 1, n, a, b);
      ConcatStep(t, u, m, n, a, b, Group(t[..s], a, b), Split(t[s..], m - 1, a, b), Split(u, n, a, b));
    }
  }

  predicate AllHave<T>(shards: seq<seq<T>>, n: nat, size: nat) {
    forall i :: 0 <= i < |shards| ==> Groups(|shards[i]|, n, size)
  }

  lemma {:induction false} ConcatSize<T>(shards: seq<seq<T>>, n: nat, size: nat)
    requires AllHave(shards, n, size)
    ensures Groups(|Flatten(shards)|, |shards| * n, size)
    decreases |shards|
  {
    if shards != [] {
      var front, last := shards[..|shards| - 1], shards[|shards| - 1];
      ConcatSize(front, n, size);
      Sizes(|shards|, n);
      GroupsIff(|Flatten(front)|, |front| * n, size);
      GroupsIff(|last|, n, size);
      GroupsIff(|Flatten(shards)|, |shards| * n, size);
      Distribute(|front| * n, n, size);
    }
  }

  /** What the loop over the shards puts together. */
  function SplitEach<T>(shards: seq<seq<T>>, n: nat, a: nat, b: nat): Qkv<T> {
    if shards == [] then Qkv([], [], [])
    else Plus(SplitEach(shards[..|shards| - 1], n, a, b), Split(shards[|shards| - 1], n, a, b))
  }

  /** Splitting shard by shard is splitting the whole. */
  lemma {:induction false} ShardedSplitIsSplit<T>(shards: seq<seq<T>>, n: nat, a: nat, b: nat)
    requires AllHave(shards, n, a + 2 * b)
    ensures SplitEach(shards, n, a, b) == Split(Flatten(shards), |shards| * n, a, b)
    decreases |shards|
  {
    if shards != [] {
      var front, last := shards[..|shards| - 1], shards[|shards| - 1];
      ShardedSplitIsSplit(front, n, a, b);
      ConcatSize(front, n, a + 2 * b);
      Sizes(|shards|, n);
      SplitOfConcat(Flatten(front), last, |front| * n, n, a, b);
    }
  }

  lemma {:induction false} AllGroupsOfConcat<T>(t: seq<T>, u: seq<T>, m: nat, a: nat, b: nat)
    requires Groups(|t|, m, a + 2 * b) && a + 2 * b > 0
    ensures AllGroups(t + u, a, b) == Plus(AllGroups(t, a, b), AllGroups(u, a, b))
    decreases m
  {
    if m == 0 {
      NothingBefore(t, u, AllGroups(u, a, b));
    } else {
      var s := a + 2 * b;
      var rest := t[s..];
      AllGroupsOfConcat(rest, u, m - 1, a, b);
      CutInFirst(t, u, s);
      PlusIsAssociative(Group(t[..s], a, b), AllGroups(rest, a, b), AllGroups(u, a, b));
    }
  }

  /** A number of rows that is a multiple of the size. */
  predicate Multiple(rows: nat, size: nat) {
    if size == 0 then rows == 0 else rows % size == 0
  }

  lemma MultipleSum(x: nat, y: nat, size: nat)
    requires Multiple(x, size) && Multiple(y, size)
    ensures Multiple(x + y, size)
  {
    if size > 0 {
      Exactly(x, size);
      Exactly(y, size);
      Distribute(x / size, y / size, size);
      DivUnique(x / size + y / size, size, 0);
    }
  }

  lemma FitIsMultiple(rows: nat, n: nat, size: nat)
    requires n > 0 && ChunksFit(rows, n, size)
    ensures Multiple(rows, size)
  {
    NoRows(n);
  }

  /** Shards with fitting chunks can be put together before or after they are taken apart. */
  lemma {:induction false} AppendShard<T>(front: seq<T>, shard: seq<T>, a: nat, b: nat)
    requires Multiple(|front|, a + 2 * b) && Multiple(|shard|, a + 2 * b)
    ensures AllGroups(front + shard, a, b) == Plus(AllGroups(front, a, b), AllGroups(shard, a, b))
    ensures Multiple(|front + shard|, a + 2 * b)
  {
    var size := a + 2 * b;
    if size == 0 {
      assert front == [] && shard == [] && front + shard == [];
      NothingBefore(front, shard, AllGroups(shard, a, b));
    } else {
      ExactGroups(|front|, size);
      AllGroupsOfConcat(front, shard, |front| / size, a, b);
      MultipleSum(|front|, |shard|, size);
    }
  }

  predicate AllFit<T>(shards: seq<seq<T>>, n: nat, size: nat)
    requires n > 0
  {
    forall i :: 0 <= i < |shards| ==> ChunksFit(|shards[i]|, n, size)
  }

  /** One more shard in the loop. */
  lemma {:induction false} NextShard<T>(shards: seq<seq<T>>, i: nat, n: nat, a: nat, b: nat)
    requires n > 0 && i < |shards| && ChunksFit(|shards[i]|, n, a + 2 * b)
    requires Multiple(|Flatten(shards[..i])|, a + 2 * b)
    ensures AllGroups(Flatten(shards[..i + 1]), a, b)
            == Plus(AllGroups(Flatten(shards[..i]), a, b), AllGroups(shards[i], a, b))
    ensures Multiple(|Flatten(shards[..i + 1])|, a + 2 * b)
  {
    FitIsMultiple(|shards[i]|, n, a + 2 * b);
    AppendShard(Flatten(shards[..i]), shards[i], a, b);
    FlattenSnoc(shards[..i], shards[i]);
    assert shards[..i + 1] == shards[..i] + [shards[i]];
  }

  /** The loops over the shards and their chunks. */
  method SplitShards<T>(shards: seq<seq<T>>, n: nat, a: nat, b: nat) returns (w: Option<Qkv<T>>)
    requires n > 0
    ensures w == if AllFit(shards, n, a + 2 * b) then Some(AllGroups(Flatten(shards), a, b)) else None
  {
    var parts := Qkv([], [], []);
    for i := 0 to |shards|
      invariant forall j :: 0 <= j < i ==> ChunksFit(|shards[j]|, n, a + 2 * b)
      invariant parts == AllGroups(Flatten(shards[..i]), a, b)
      invariant Multiple(|Flatten(shards[..i])|, a + 2 * b)
    {
      var shard := SplitChunks(shards[i], n, a, b);
      SplitIntoIff(shards[i], n, a, b);
      if shard.None? {
        return None;
      }
      NextShard(shards, i, n, a, b);
      parts := Plus(parts, shard.value);
    }
    assert shards[..|shards|] == shards;
    w := Some(parts);
  }

  /** What the first shard says about all of them: the rows of a chunk, for the queries and for the keys. */
  function ChunkRows(rows: nat, heads: nat, kvHeads: nat, n: nat): (nat, nat)
    requires kvHeads > 0 && n > 0
  {
    var g := Sharing(heads, kvHeads);
    (QueryRows(KvRows(rows, g), g, n), KvRows(rows, g) / n)
  }

  /** The checks of the merge: whole numbers of heads, at least one key-value head for every shard, the rows of the
      first shard divisible, and the chunks of every shard of the size that follows from the first. */
  predicate MergeFits<T>(shards: seq<seq<T>>, heads: nat, kvHeads: nat)
    requires shards != []
  {
    && kvHeads > 0 && heads % kvHeads == 0 && PerShard(kvHeads, |shards|) > 0
    && |shards[0]| % (Sharing(heads, kvHeads) + 2) == 0
    && var n := PerShard(kvHeads, |shards|);
       var (a, b) := ChunkRows(|shards[0]|, heads, kvHeads, n);
       AllFit(shards, n, a + 2 * b)
  }

  /** The groups of all shards, in order, taken apart. */
  ghost function MergedShards<T>(shards: seq<seq<T>>, heads: nat, kvHeads: nat): (w: Option<Qkv<T>>)
    requires shards != []
    ensures w.Some? <==> MergeFits(shards, heads, kvHeads)
  {
    if !MergeFits(shards, heads, kvHeads) then None
    else
      var (a, b) := ChunkRows(|shards[0]|, heads, kvHeads, PerShard(kvHeads, |shards|));
      Some(AllGroups(Flatten(shards), a, b))
  }

  /** Every shard holds the same number of whole groups with heads of d rows. */
  predicate ShardsFit<T>(shards: seq<seq<T>>, heads: nat, kvHeads: nat, d: nat)
    requires shards != []
  {
    && kvHeads > 0 && heads % kvHeads == 0 && kvHeads % |shards| == 0
    && AllHave(shards, PerShard(kvHeads, |shards|), Sharing(heads, kvHeads) * d + 2 * d)
  }

  lemma ShardSizes<T>(shards: seq<seq<T>>, heads: nat, kvHeads: nat, d: nat)
    requires shards != [] && ShardsFit(shards, heads, kvHeads, d)
    ensures var g, n := Sharing(heads, kvHeads), PerShard(kvHeads, |shards|);
            && n > 0 && |shards| * n == kvHeads && |shards[0]| % (g + 2) == 0
            && ChunkRows(|shards[0]|, heads, kvHeads, n) == (g * d, d)
  {
    var g, n := Sharing(heads, kvHeads), PerShard(kvHeads, |shards|);
    Exactly(kvHeads, |shards|);
    GroupsIff(|shards[0]|, n, g * d + 2 * d);
    EvenHeads(g, d, n);
  }

  lemma GroupsFit(rows: nat, n: nat, size: nat)
    requires n > 0 && Groups(rows, n, size)
    ensures ChunksFit(rows, n, size)
  {
    GroupsIff(rows, n, size);
    ChunkSize(n, size);
    if rows > 0 {
      NotAllEmpty(rows, n, size);
      DivUnique(n, size, 0);
    }
  }

  /** Shards of whole groups fit, and then the merge is the unsharded split of their concatenation. */
  lemma {:induction false} WholeShardsFit<T>(shards: seq<seq<T>>, heads: nat, kvHeads: nat, d: nat)
    requires shards != [] && ShardsFit(shards, heads, kvHeads, d)
    ensures MergeFits(shards, heads, kvHeads)
    ensures ChunkRows(|shards[0]|, heads, kvHeads, PerShard(kvHeads, |shards|)) == (Sharing(heads, kvHeads) * d, d)
    ensures AllGroups(Flatten(shards), Sharing(heads, kvHeads) * d, d)
            == Split(Flatten(shards), kvHeads, Sharing(heads, kvHeads) * d, d)
  {
    var g, n := Sharing(heads, kvHeads), PerShard(kvHeads, |shards|);
    ShardSizes(shards, heads, kvHeads, d);
    forall i | 0 <= i < |shards|
      ensures ChunksFit(|shards[i]|, n, g * d + 2 * d)
    {
      GroupsFit(|shards[i]|, n, g * d + 2 * d);
    }
    ConcatSize(shards, n, g * d + 2 * d);
    AllGroupsIsSplit(Flatten(shards), kvHeads, g * d, d);
  }

  /** For any tensor-parallel size that divides the key-value heads, shards of whole groups pass the checks, and what
      comes out is the unsharded split of their concatenation. */
  lemma {:induction false} WholeShardsMerge<T>(shards: seq<seq<T>>, heads: nat, kvHeads: nat, d: nat)
    requires shards != [] && ShardsFit(shards, heads, kvHeads, d)
    ensures MergedShards(shards, heads, kvHeads) ==
            Some(Split(Flatten(shards), kvHeads, Sharing(heads, kvHeads) * d, d))
    ensures GroupsAre(Flatten(shards), MergedShards(shards, heads, kvHeads).value, kvHeads, heads / kvHeads * d, d)
  {
    var g, n := Sharing(heads, kvHeads), PerShard(kvHeads, |shards|);
    WholeShardsFit(shards, heads, kvHeads, d);
    ShardSizes(shards, heads, kvHeads, d);
    ConcatSize(shards, n, g * d + 2 * d);
    SplitGroups(Flatten(shards), kvHeads, g * d, d);
  }

  /** The qkv branch of _merge_across_tp succeeds if and only if its checks hold, and then the groups of all shards, in
      order, have been taken apart. */
  method MergeAcrossTp<T>(shards: seq<seq<T>>, heads: nat, kvHeads: nat) returns (w: Option<Qkv<T>>)
    requires shards != []
    ensures w == MergedShards(shards, heads, kvHeads)
  {
    if kvHeads == 0 || heads % kvHeads != 0 {
      return None;
    }
    var g, n := Sharing(heads, kvHeads), PerShard(kvHeads, |shards|);
    if |shards[0]| % (g + 2) != 0 || n == 0 {
      return None;
    }
    var kvSize := KvRows(|shards[0]|, g);
    var (a, b) := (QueryRows(kvSize, g, n), kvSize / n);
    w := SplitShards(shards, n, a, b);
  }

  /** So merging the shards of a converted tensor gives back the three projections. */
  lemma {:induction false} MergedShardsAreTheOriginal<T>(shards: seq<seq<T>>, w: Qkv<T>, heads: nat,
                                                         kvHeads: nat, d: nat)
    requires Projections(w, heads, kvHeads, d) && Whole(w, kvHeads, Sharing(heads, kvHeads) * d, d)
    requires Flatten(shards) == Interleave(w, kvHeads, Sharing(heads, kvHeads) * d, d)
    ensures Split(Flatten(shards), kvHeads, Sharing(heads, kvHeads) * d, d) == w
    ensures shards != [] && ShardsFit(shards, heads, kvHeads, d) ==> MergedShards(shards, heads, kvHeads) == Some(w)
  {
    if shards != [] && ShardsFit(shards, heads, kvHeads, d) {
      WholeShardsMerge(shards, heads, kvHeads, d);
    }
    SplitUndoesInterleave(w, kvHeads, Sharing(heads, kvHeads) * d, d);
  }
}
