/** DataProto of protocol.py: a batch of rows, stored as tensor and non-tensor columns. Every operation is compared with
    picking rows by number, so that all columns are seen to be treated alike. */
module BatchAlgebra {
  import opened Arithmetic
  import opened Sequences
  import opened Wrappers

  type Columns<T> = map<string, seq<T>>

  datatype Proto<T> = Proto(tensors: Columns<T>, others: Columns<T>)

  predicate AllLong<T>(cols: Columns<T>, n: nat) {
    forall k :: k in cols ==> |cols[k]| == n
  }

  /** All columns have n rows. */
  predicate Rows<T>(d: Proto<T>, n: nat) {
    AllLong(d.tensors, n) && AllLong(d.others, n)
  }

  // ----- picking rows -----

  predicate Within(idx: seq<nat>, n: nat) {
    forall i :: 0 <= i < |idx| ==> idx[i] < n
  }

  function Pick<T>(col: seq<T>, idx: seq<nat>): (picked: seq<T>)
    requires Within(idx, |col|)
    ensures |picked| == |idx| && forall i :: 0 <= i < |idx| ==> picked[i] == col[idx[i]]
  {
    seq(|idx|, i requires 0 <= i < |idx| => col[idx[i]])
  }

  function PickColumns<T>(cols: Columns<T>, n: nat, idx: seq<nat>): Columns<T>
    requires AllLong(cols, n) && Within(idx, n)
  {
    map k | k in cols :: Pick(cols[k], idx)
  }

  /** Row i of the result is row idx[i], in every column. */
  function Picked<T>(d: Proto<T>, n: nat, idx: seq<nat>): (picked: Proto<T>)
    requires Rows(d, n) && Within(idx, n)
    ensures Rows(picked, |idx|)
  {
    Proto(PickColumns(d.tensors, n, idx), PickColumns(d.others, n, idx))
  }

  /** Entry by entry. */
  predicate ColumnsTake<T(==)>(cols: Columns<T>, from: Columns<T>, idx: seq<nat>) {
    && cols.Keys == from.Keys
    && forall k :: k in cols ==>
         && |cols[k]| == |idx|
         && forall i :: 0 <= i < |idx| ==> idx[i] < |from[k]| && cols[k][i] == from[k][idx[i]]
  }

  lemma PickedTakes<T>(d: Proto<T>, n: nat, idx: seq<nat>)
    requires Rows(d, n) && Within(idx, n)
    ensures ColumnsTake(Picked(d, n, idx).tensors, d.tensors, idx)
    ensures ColumnsTake(Picked(d, n, idx).others, d.others, idx)
  {
  }

  function Range(lo: nat, hi: nat): (idx: seq<nat>)
    requires lo <= hi
    ensures |idx| == hi - lo && forall i :: 0 <= i < |idx| ==> idx[i] == lo + i
  {
    seq(hi - lo, i requires 0 <= i => lo + i)
  }

  lemma PickAll<T>(d: Proto<T>, n: nat)
    requires Rows(d, n)
    ensures Picked(d, n, Range(0, n)) == d
  {
    forall cols: Columns<T>, k | AllLong(cols, n) && k in cols
      ensures Pick(cols[k], Range(0, n)) == cols[k]
    {
    }
    assert PickColumns(d.tensors, n, Range(0, n)) == d.tensors;
    assert PickColumns(d.others, n, Range(0, n)) == d.others;
  }

  // ----- slices and concatenation -----

  function SliceColumns<T>(cols: Columns<T>, lo: nat, hi: nat): Columns<T>
    requires lo <= hi && forall k :: k in cols ==> hi <= |cols[k]|
  {
    map k | k in cols :: cols[k][lo..hi]
  }

  function Slice<T>(d: Proto<T>, n: nat, lo: nat, hi: nat): Proto<T>
    requires Rows(d, n) && lo <= hi <= n
  {
    Proto(SliceColumns(d.tensors, lo, hi), SliceColumns(d.others, lo, hi))
  }

  lemma SliceIsPicked<T>(d: Proto<T>, n: nat, lo: nat, hi: nat)
    requires Rows(d, n) && lo <= hi <= n
    ensures Slice(d, n, lo, hi) == Picked(d, n, Range(lo, hi))
  {
    forall cols: Columns<T>, k | AllLong(cols, n) && k in cols
      ensures Pick(cols[k], Range(lo, hi)) == cols[k][lo..hi]
    {
    }
    assert SliceColumns(d.tensors, lo, hi) == PickColumns(d.tensors, n, Range(lo, hi));
    assert SliceColumns(d.others, lo, hi) == PickColumns(d.others, n, Range(lo, hi));
  }

  function AppendColumns<T>(x: Columns<T>, y: Columns<T>): Columns<T>
    requires x.Keys == y.Keys
  {
    map k | k in x :: x[k] + y[k]
  }

  predicate SameKeys<T>(x: Proto<T>, y: Proto<T>) {
    x.tensors.Keys == y.tensors.Keys && x.others.Keys == y.others.Keys
  }

  function Append<T>(x: Proto<T>, y: Proto<T>): Proto<T>
    requires SameKeys(x, y)
  {
    Proto(AppendColumns(x.tensors, y.tensors), AppendColumns(x.others, y.others))
  }

  predicate Alike<T>(ds: seq<Proto<T>>) {
    ds != [] && forall i :: 0 <= i < |ds| ==> SameKeys(ds[0], ds[i])
  }

  /** DataProto.concat of a list whose entries have the same columns. */
  function Concat<T>(ds: seq<Proto<T>>): (d: Proto<T>)
    requires Alike(ds)
    ensures SameKeys(ds[0], d)
  {
    if |ds| == 1 then ds[0]
    else
      var front := ds[..|ds| - 1];
      assert front[0] == ds[0] && SameKeys(ds[0], ds[|ds| - 1]) && forall i :: 0 <= i < |front| ==> front[i] == ds[i];
      Append(Concat(front), ds[|ds| - 1])
  }

  /** How many rows come before those of batch c. */
  function RowsBefore(sizes: seq<nat>, c: nat): nat
    requires c <= |sizes|
  {
    if c == 0 then 0 else RowsBefore(sizes, c - 1) + sizes[c - 1]
  }

  /** Row i of part is row `at` + i of all, in every column. */
  predicate ColumnsBehind<T(==)>(part: Columns<T>, all: Columns<T>, at: nat, size: nat) {
    && all.Keys == part.Keys
    && forall k :: k in part ==> |part[k]| == size && at + size <= |all[k]| && all[k][at..at + size] == part[k]
  }

  predicate RowsBehind<T(==)>(part: Proto<T>, all: Proto<T>, at: nat, size: nat) {
    ColumnsBehind(part.tensors, all.tensors, at, size) && ColumnsBehind(part.others, all.others, at, size)
  }

  lemma AppendBehind<T>(part: Columns<T>, x: Columns<T>, y: Columns<T>, at: nat, size: nat)
    requires x.Keys == y.Keys && ColumnsBehind(part, x, at, size)
    ensures ColumnsBehind(part, AppendColumns(x, y), at, size)
  {
    forall k | k in part
      ensures (x[k] + y[k])[at..at + size] == part[k]
    {
      assert (x[k] + y[k])[at..at + size] == x[k][at..at + size];
    }
  }

  lemma AppendedBehind<T>(x: Columns<T>, y: Columns<T>, m: nat, size: nat)
    requires x.Keys == y.Keys && AllLong(x, m) && AllLong(y, size)
    ensures ColumnsBehind(y, AppendColumns(x, y), m, size) && AllLong(AppendColumns(x, y), m + size)
  {
    forall k | k in y
      ensures (x[k] + y[k])[m..m + size] == y[k]
    {
    }
  }

  predicate AllRows<T>(ds: seq<Proto<T>>, sizes: seq<nat>) {
    |sizes| == |ds| && forall i :: 0 <= i < |ds| ==> Rows(ds[i], sizes[i])
  }

  lemma {:induction false} ConcatIsAppend<T>(ds: seq<Proto<T>>, m: nat)
    requires Alike(ds) && |ds| == m + 1 && m > 0
    ensures Alike(ds[..m]) && SameKeys(Concat(ds[..m]), ds[m]) && Concat(ds) == Append(Concat(ds[..m]), ds[m])
  {
    var front := ds[..m];
    assert front[0] == ds[0] && SameKeys(ds[0], ds[m]) && forall i :: 0 <= i < m ==> front[i] == ds[i];
  }

  lemma AppendRows<T>(x: Proto<T>, y: Proto<T>, m: nat, size: nat)
    requires SameKeys(x, y) && Rows(x, m) && Rows(y, size)
    ensures Rows(Append(x, y), m + size) && RowsBehind(y, Append(x, y), m, size)
  {
    AppendedBehind(x.tensors, y.tensors, m, size);
    AppendedBehind(x.others, y.others, m, size);
  }

  lemma RowsStay<T>(part: Proto<T>, x: Proto<T>, y: Proto<T>, at: nat, size: nat)
    requires SameKeys(x, y) && RowsBehind(part, x, at, size)
    ensures RowsBehind(part, Append(x, y), at, size)
  {
    AppendBehind(part.tensors, x.tensors, y.tensors, at, size);
    AppendBehind(part.others, x.others, y.others, at, size);
  }

  lemma {:induction false} ConcatRows<T>(ds: seq<Proto<T>>, sizes: seq<nat>)
    requires Alike(ds) && AllRows(ds, sizes)
    ensures Rows(Concat(ds), RowsBefore(sizes, |ds|))
    decreases |ds|
  {
    var m := |ds| - 1;
    if m > 0 {
      ConcatIsAppend(ds, m);
      ConcatRows(ds[..m], sizes[..m]);
      RowsBeforeInit(sizes, m, m);
      AppendRows(Concat(ds[..m]), ds[m], RowsBefore(sizes, m), sizes[m]);
    }
  }

  lemma OnlyBatch<T>(d: Proto<T>, size: nat)
    requires Rows(d, size)
    ensures RowsBehind(d, d, 0, size)
  {
  }

  /** The rows of batch c come behind those of the batches before it. */
  lemma {:induction false} ConcatAt<T>(ds: seq<Proto<T>>, sizes: seq<nat>, c: nat)
    requires Alike(ds) && AllRows(ds, sizes) && c < |ds|
    ensures RowsBehind(ds[c], Concat(ds), RowsBefore(sizes, c), sizes[c])
    decreases |ds|
  {
    var m := |ds| - 1;
    if c == m {
      LastBatchAt(ds, sizes, m);
    } else {
      ConcatIsAppend(ds, m);
      var at := RowsBefore(sizes, c);
      RowsBeforeInit(sizes, m, c);
      ConcatAt(ds[..m], sizes[..m], c);
      assert ds[..m][c] == ds[c] && sizes[..m][c] == sizes[c];
      RowsStay(ds[c], Concat(ds[..m]), ds[m], at, sizes[c]);
    }
  }

  lemma {:induction false} LastBatchAt<T>(ds: seq<Proto<T>>, sizes: seq<nat>, m: nat)
    requires Alike(ds) && AllRows(ds, sizes) && |ds| == m + 1
    ensures RowsBehind(ds[m], Concat(ds), RowsBefore(sizes, m), sizes[m])
  {
    if m == 0 {
      OnlyBatch(ds[0], sizes[0]);
    } else {
      ConcatIsAppend(ds, m);
      RowsBeforeInit(sizes, m, m);
      ConcatRows(ds[..m], sizes[..m]);
      AppendRows(Concat(ds[..m]), ds[m], RowsBefore(sizes, m), sizes[m]);
    }
  }

  lemma {:induction false} RowsBeforeInit(sizes: seq<nat>, m: nat, c: nat)
    requires c <= m <= |sizes|
    ensures RowsBefore(sizes[..m], c) == RowsBefore(sizes, c)
  {
    if c > 0 {
      RowsBeforeInit(sizes, m, c - 1);
    }
  }

  lemma AppendPickedColumns<T>(cols: Columns<T>, n: nat, a: seq<nat>, b: seq<nat>)
    requires AllLong(cols, n) && Within(a, n) && Within(b, n)
    ensures AppendColumns(PickColumns(cols, n, a), PickColumns(cols, n, b)) == PickColumns(cols, n, a + b)
  {
    forall k | k in cols
      ensures Pick(cols[k], a) + Pick(cols[k], b) == Pick(cols[k], a + b)
    {
    }
  }

  lemma AppendPicked<T>(d: Proto<T>, n: nat, a: seq<nat>, b: seq<nat>)
    requires Rows(d, n) && Within(a, n) && Within(b, n)
    ensures Append(Picked(d, n, a), Picked(d, n, b)) == Picked(d, n, a + b)
  {
    AppendPickedColumns(d.tensors, n, a, b);
    AppendPickedColumns(d.others, n, a, b);
  }

  predicate AllWithin(lists: seq<seq<nat>>, n: nat) {
    forall i :: 0 <= i < |lists| ==> Within(lists[i], n)
  }

  /** ds[i] has the rows lists[i] of d. */
  predicate Parts<T(==)>(d: Proto<T>, n: nat, lists: seq<seq<nat>>, ds: seq<Proto<T>>)
    requires Rows(d, n) && AllWithin(lists, n)
  {
    |ds| == |lists| && forall i :: 0 <= i < |ds| ==> ds[i] == Picked(d, n, lists[i])
  }

  lemma {:induction false} ConcatOfParts<T>(d: Proto<T>, n: nat, lists: seq<seq<nat>>, ds: seq<Proto<T>>)
    requires Rows(d, n) && AllWithin(lists, n) && Parts(d, n, lists, ds) && ds != []
    ensures Alike(ds) && Within(Flatten(lists), n) && Concat(ds) == Picked(d, n, Flatten(lists))
    decreases |ds|
  {
    var m := |ds| - 1;
    if m == 0 {
      assert lists[..0] == [] && Flatten(lists[..0]) + lists[0] == lists[0];
    } else {
      ConcatOfParts(d, n, lists[..m], ds[..m]);
      AppendPicked(d, n, Flatten(lists[..m]), lists[m]);
    }
  }

  // ----- padding -----

  /** 0, 1, ..., n - 1, 0, 1, ... */
  function Cycle(n: nat, total: nat): (idx: seq<nat>)
    requires n > 0
    ensures |idx| == total && Within(idx, n)
  {
    seq(total, i requires 0 <= i => i % n)
  }

  lemma ModShift(a: nat, n: nat, i: nat)
    requires n > 0 && a % n == 0 && i < n
    ensures (a + i) % n == i
  {
    assert a == a / n * n;
    DivUnique(a / n, n, i);
  }

  lemma CycleStep(n: nat, a: nat, take: nat)
    requires n > 0 && take <= n && a % n == 0
    ensures Cycle(n, a + take) == Cycle(n, a) + Range(0, take)
  {
    var more, less, turn := Cycle(n, a + take), Cycle(n, a), Range(0, take);
    forall i | 0 <= i < a + take
      ensures more[i] == (less + turn)[i]
    {
      if i >= a {
        ModShift(a, n, i - a);
      }
    }
  }

  lemma NextMultiple(n: nat, divisor: nat)
    requires divisor > 0 && n % divisor != 0
    ensures (n + (divisor - n % divisor)) % divisor == 0
  {
    assert n == n / divisor * divisor + n % divisor;
    MulStep(n / divisor, divisor);
    DivUnique(n / divisor + 1, divisor, 0);
  }

  /** The pieces collected so far make up the first `done` rows of the padded batch. */
  ghost predicate Padding<T>(d: Proto<T>, n: nat, lists: seq<seq<nat>>, protos: seq<Proto<T>>, done: nat)
    requires Rows(d, n) && n > 0
  {
    protos != [] && AllWithin(lists, n) && Parts(d, n, lists, protos) && Flatten(lists) == Cycle(n, done)
  }

  lemma PadStart<T>(d: Proto<T>, n: nat)
    requires Rows(d, n) && n > 0
    ensures Padding(d, n, [Range(0, n)], [d], n) && d == Picked(d, n, Cycle(n, n))
  {
    PickAll(d, n);
    CycleStep(n, 0, n);
    assert Cycle(n, n) == Range(0, n);
    var lists := [Range(0, n)];
    assert lists[..0] == [] && Flatten(lists[..0]) + lists[0] == lists[0];
  }

  lemma PadStep<T>(d: Proto<T>, n: nat, lists: seq<seq<nat>>, protos: seq<Proto<T>>, done: nat, take: nat)
    requires Rows(d, n) && n > 0 && Padding(d, n, lists, protos, done) && done % n == 0 && take <= n
    ensures Padding(d, n, lists + [Range(0, take)], protos + [Slice(d, n, 0, take)], done + take)
  {
    SliceIsPicked(d, n, 0, take);
    CycleStep(n, done, take);
    assert (lists + [Range(0, take)])[..|lists|] == lists;
  }

  /** pad_dataproto_to_divisor */
  method Pad<T>(d: Proto<T>, n: nat, divisor: nat) returns (padded: Proto<T>, padSize: nat)
    requires Rows(d, n) && divisor > 0
    ensures (n + padSize) % divisor == 0 && padSize < divisor
    ensures n > 0 ==> padded == Picked(d, n, Cycle(n, n + padSize))
    ensures n == 0 ==> padSize == 0 && padded == d
  {
    if n > 0 {
      PadStart(d, n);
    }
    if n % divisor == 0 {
      return d, 0;
    }
    NextMultiple(n, divisor);
    padSize := divisor - n % divisor;
    var protos, remaining := [d], padSize;
    ghost var lists, done := [Range(0, n)], n;
    TurnAround(0, n);
    while remaining > 0
      invariant 0 <= remaining <= padSize && done == n + padSize - remaining && (remaining > 0 ==> done % n == 0)
      invariant Padding(d, n, lists, protos, done)
    {
      var take := Min(remaining, n);
      PadStep(d, n, lists, protos, done, take);
      TurnAround(done, n);
      protos, lists := protos + [Slice(d, n, 0, take)], lists + [Range(0, take)];
      remaining, done := remaining - take, done + take;
    }
    PadEnd(d, n, lists, protos, done);
    padded := Concat(protos);
  }

  lemma PadEnd<T>(d: Proto<T>, n: nat, lists: seq<seq<nat>>, protos: seq<Proto<T>>, done: nat)
    requires Rows(d, n) && n > 0 && Padding(d, n, lists, protos, done)
    ensures Alike(protos) && Concat(protos) == Picked(d, n, Cycle(n, done))
  {
    ConcatOfParts(d, n, lists, protos);
  }

  lemma TurnAround(a: nat, n: nat)
    requires n > 0 && a % n == 0
    ensures (a + n) % n == 0
  {
    assert a == a / n * n;
    MulStep(a / n, n);
    DivUnique(a / n + 1, n, 0);
  }

  /** Row i of the padded batch is row i % n, in every column. */
  lemma PadTakes<T>(d: Proto<T>, n: nat, idx: seq<nat>)
    requires Rows(d, n) && n > 0 && forall i :: 0 <= i < |idx| ==> idx[i] == i % n
    ensures ColumnsTake(Picked(d, n, Cycle(n, |idx|)).tensors, d.tensors, idx)
    ensures ColumnsTake(Picked(d, n, Cycle(n, |idx|)).others, d.others, idx)
  {
    assert Cycle(n, |idx|) == idx;
    PickedTakes(d, n, idx);
  }

  /** unpad_dataproto: data[:-pad_size] */
  function Unpad<T>(d: Proto<T>, n: nat, padSize: nat): Proto<T>
    requires Rows(d, n)
  {
    if padSize == 0 then d else Slice(d, n, 0, if padSize <= n then n - padSize else 0)
  }

  lemma FirstRowsOfCycle<T>(cols: Columns<T>, n: nat, total: nat)
    requires AllLong(cols, n) && 0 < n <= total
    ensures SliceColumns(PickColumns(cols, n, Cycle(n, total)), 0, n) == cols
  {
    CycleStep(n, 0, n);
    forall k | k in cols
      ensures Pick(cols[k], Cycle(n, total))[0..n] == cols[k]
    {
    }
  }

  /** Unpadding gives back what was padded. */
  lemma UnpadUndoesPad<T>(d: Proto<T>, n: nat, padSize: nat)
    requires Rows(d, n) && n > 0
    ensures Unpad(Picked(d, n, Cycle(n, n + padSize)), n + padSize, padSize) == d
  {
    FirstRowsOfCycle(d.tensors, n, n + padSize);
    FirstRowsOfCycle(d.others, n, n + padSize);
    if padSize == 0 {
      PadStart(d, n);
    }
  }

  // ----- chunk and split -----

  /** The ranges of consecutive pieces of a given size. */
  function Pieces(n: nat, lo: nat, size: nat): (lists: seq<seq<nat>>)
    requires lo <= n && size > 0
    ensures AllWithin(lists, n)
    decreases n - lo
  {
    if lo == n then []
    else
      var hi := Min(lo + size, n);
      [Range(lo, hi)] + Pieces(n, hi, size)
  }

  lemma {:induction false} PiecesJoin(n: nat, lo: nat, size: nat)
    requires lo <= n && size > 0
    ensures Flatten(Pieces(n, lo, size)) == Range(lo, n)
    decreases n - lo
  {
    if lo < n {
      var hi := Min(lo + size, n);
      PiecesJoin(n, hi, size);
      FlattenCons(Range(lo, hi), Pieces(n, hi, size));
    }
  }

  /** Piece c begins behind c pieces of the full size. */
  lemma {:induction false} PiecesAt(n: nat, lo: nat, size: nat, c: nat)
    requires lo <= n && size > 0 && c < |Pieces(n, lo, size)|
    ensures lo + c * size < n
    ensures Pieces(n, lo, size)[c] == Range(lo + c * size, Min(lo + c * size + size, n))
    decreases n - lo
  {
    if c > 0 {
      PiecesAt(n, Min(lo + size, n), size, c - 1);
      MulStep(c, size);
    }
  }

  /** DataProto.split */
  method Split<T>(d: Proto<T>, n: nat, size: nat) returns (parts: seq<Proto<T>>)
    requires Rows(d, n) && size > 0
    ensures Parts(d, n, Pieces(n, 0, size), parts)
    ensures n > 0 ==> Alike(parts) && Concat(parts) == d
  {
    parts := [];
    var i := 0;
    ghost var lists: seq<seq<nat>> := [];
    while i < n
      invariant IsSplitTo(d, n, size, i, lists, parts)
      decreases n - i
    {
      var hi := Min(i + size, n);
      SplitNext(d, n, size, i, lists, parts);
      parts, lists := parts + [Slice(d, n, i, hi)], lists + [Range(i, hi)];
      i := i + size;
    }
    SplitEnds(d, n, size, i, lists, parts);
  }

  /** The parts so far are the pieces of the first rows, and the other pieces are to come. */
  ghost predicate IsSplitTo<T>(d: Proto<T>, n: nat, size: nat, i: nat, lists: seq<seq<nat>>, parts: seq<Proto<T>>)
    requires Rows(d, n) && size > 0
  {
    && AllWithin(lists, n) && Parts(d, n, lists, parts)
    && lists + Pieces(n, Min(i, n), size) == Pieces(n, 0, size)
  }

  lemma PiecesNext(n: nat, i: nat, size: nat, lists: seq<seq<nat>>)
    requires i < n && size > 0
    ensures var hi := Min(i + size, n);
            lists + Pieces(n, i, size) == (lists + [Range(i, hi)]) + Pieces(n, hi, size)
  {
  }

  lemma SplitNext<T>(d: Proto<T>, n: nat, size: nat, i: nat, lists: seq<seq<nat>>, parts: seq<Proto<T>>)
    requires Rows(d, n) && size > 0 && i < n && IsSplitTo(d, n, size, i, lists, parts)
    ensures var hi := Min(i + size, n);
            IsSplitTo(d, n, size, i + size, lists + [Range(i, hi)], parts + [Slice(d, n, i, hi)])
  {
    SliceIsPicked(d, n, i, Min(i + size, n));
    PiecesNext(n, i, size, lists);
  }

  lemma SplitEnds<T>(d: Proto<T>, n: nat, size: nat, i: nat, lists: seq<seq<nat>>, parts: seq<Proto<T>>)
    requires Rows(d, n) && size > 0 && n <= i && IsSplitTo(d, n, size, i, lists, parts)
    ensures Parts(d, n, Pieces(n, 0, size), parts)
    ensures n > 0 ==> Alike(parts) && Concat(parts) == d
  {
    assert lists + [] == lists;
    if n > 0 {
      PiecesJoin(n, 0, size);
      ConcatOfParts(d, n, lists, parts);
      PickAll(d, n);
    }
  }

  // ----- chunk -----

  function Nothings(m: nat): (lists: seq<seq<nat>>)
    ensures |lists| == m && forall i :: 0 <= i < m ==> lists[i] == []
  {
    if m == 0 then [] else Nothings(m - 1) + [[]]
  }

  /** torch.chunk: pieces of the same size but for the last, as many as that makes. */
  function ChunkRanges(n: nat, chunks: nat): (lists: seq<seq<nat>>)
    requires chunks > 0
    ensures AllWithin(lists, n)
  {
    if n == 0 then Nothings(chunks)
    else
      CeilDivBounds(n, chunks);
      Pieces(n, 0, CeilDiv(n, chunks))
  }

  /** So the c-th chunk begins at row c * ceil(n / chunks), and all but the last are that long. */
  lemma ChunkRangesAt(n: nat, chunks: nat, c: nat)
    requires chunks > 0 && c < |ChunkRanges(n, chunks)|
    ensures var size, range := (n + chunks - 1) / chunks, ChunkRanges(n, chunks)[c];
            && |range| == (if c * size + size <= n then size else if c * size <= n then n - c * size else 0)
            && forall i :: 0 <= i < |range| ==> range[i] == c * size + i
  {
    if n > 0 {
      CeilDivBounds(n, chunks);
      PiecesAt(n, 0, CeilDiv(n, chunks), c);
    } else {
      DivIs(chunks - 1, 0, chunks, chunks - 1);
    }
  }

  lemma {:induction false} EvenPieces(n: nat, lo: nat, size: nat, m: nat, i: nat)
    requires lo <= n && size > 0 && n - lo == m * size && i < m
    ensures |Pieces(n, lo, size)| == m && Pieces(n, lo, size)[i] == Range(lo + i * size, lo + i * size + size)
    decreases m
  {
    MulStep(m, size);
    MulStep(m - 1, size);
    if m == 1 {
      assert Pieces(n, n, size) == [];
    } else {
      MulStep(i, size);
      MulMono(1, m, size);
      EvenPieces(n, lo + size, size, m - 1, if i == 0 then 0 else i - 1);
    }
  }

  lemma EvenQuotient(n: nat, chunks: nat)
    requires chunks > 0 && n % chunks == 0 && n > 0
    ensures CeilDiv(n, chunks) == n / chunks > 0 && n == chunks * (n / chunks)
  {
    assert n == n / chunks * chunks;
    DivUnique(n / chunks, chunks, chunks - 1);
    CeilDivBounds(n, chunks);
  }

  /** An even number of rows makes as many chunks as asked for, all of one size. */
  lemma EvenChunks(n: nat, chunks: nat, i: nat)
    requires chunks > 0 && n % chunks == 0 && i < chunks
    ensures |ChunkRanges(n, chunks)| == chunks
    ensures var q := n / chunks; ChunkRanges(n, chunks)[i] == Range(i * q, i * q + q)
  {
    if n > 0 {
      EvenQuotient(n, chunks);
      EvenPieces(n, 0, n / chunks, chunks, i);
    }
  }

  lemma {:induction false} PieceCount(n: nat, lo: nat, size: nat)
    requires size > 0 && lo < n
    ensures var k := |Pieces(n, lo, size)|; k >= 1 && (k - 1) * size < n - lo <= k * size
    decreases n - lo
  {
    var k := |Pieces(n, lo, size)|;
    if lo + size < n {
      PieceCount(n, lo + size, size);
      MulStep(k - 1, size);
    } else {
      assert Pieces(n, n, size) == [];
      assert k == 1;
    }
  }

  lemma CeilDivCovers(n: nat, chunks: nat)
    requires chunks > 0
    ensures n <= chunks * CeilDiv(n, chunks)
  {
    var c := CeilDiv(n, chunks);
    assert n + chunks - 1 == c * chunks + (n + chunks - 1) % chunks;
  }

  /** torch.chunk makes as many pieces as asked for if and only if all but one of them are not enough. */
  lemma ChunkCount(n: nat, chunks: nat)
    requires chunks > 0
    ensures |ChunkRanges(n, chunks)| == chunks <==> n == 0 || (chunks - 1) * CeilDiv(n, chunks) < n
  {
    if n > 0 {
      var size, k := CeilDiv(n, chunks), |ChunkRanges(n, chunks)|;
      CeilDivBounds(n, chunks);
      PieceCount(n, 0, size);
      CeilDivCovers(n, chunks);
      MulLess(k - 1, chunks, size);
      if k < chunks {
        MulMono(k, chunks - 1, size);
      }
    }
  }

  lemma {:induction false} NothingJoins(m: nat)
    ensures Flatten(Nothings(m)) == []
  {
    if m > 0 {
      NothingJoins(m - 1);
      assert Nothings(m)[..m - 1] == Nothings(m - 1);
    }
  }

  lemma ChunkRangesJoin(n: nat, chunks: nat)
    requires chunks > 0
    ensures Flatten(ChunkRanges(n, chunks)) == Range(0, n)
  {
    if n == 0 {
      NothingJoins(chunks);
    } else {
      CeilDivBounds(n, chunks);
      PiecesJoin(n, 0, CeilDiv(n, chunks));
    }
  }

  /** Where piece i begins. */
  function Start(lists: seq<seq<nat>>, i: nat): nat
    requires i <= |lists|
  {
    if i == 0 then 0 else Start(lists, i - 1) + |lists[i - 1]|
  }

  lemma {:induction false} StartIsLength(lists: seq<seq<nat>>, i: nat)
    requires i <= |lists|
    ensures |Flatten(lists[..i])| == Start(lists, i)
    ensures i < |lists| ==> Flatten(lists[..i + 1]) == Flatten(lists[..i]) + lists[i]
  {
    if i < |lists| {
      assert lists[..i + 1][..i] == lists[..i];
    }
    if i > 0 {
      StartIsLength(lists, i - 1);
    }
  }

  lemma {:induction false} FlattenPrefix(lists: seq<seq<nat>>, i: nat)
    requires i <= |lists|
    ensures |Flatten(lists[..i])| <= |Flatten(lists)| && Flatten(lists[..i]) == Flatten(lists)[..|Flatten(lists[..i])|]
    decreases |lists| - i
  {
    if i < |lists| {
      StartIsLength(lists, i);
      FlattenPrefix(lists, i + 1);
      assert Flatten(lists[..i]) == Flatten(lists[..i + 1])[..|Flatten(lists[..i])|];
    } else {
      assert lists[..i] == lists;
    }
  }

  /** Consecutive pieces begin where their sizes so far add up to. */
  lemma PieceIsRange(lists: seq<seq<nat>>, n: nat, i: nat)
    requires i < |lists| && Flatten(lists) == Range(0, n)
    ensures Start(lists, i) + |lists[i]| == Start(lists, i + 1) <= n
    ensures lists[i] == Range(Start(lists, i), Start(lists, i + 1))
  {
    StartIsLength(lists, i);
    StartIsLength(lists, i + 1);
    FlattenPrefix(lists, i + 1);
    var all, before := Flatten(lists), Flatten(lists[..i]);
    forall j | 0 <= j < |lists[i]|
      ensures lists[i][j] == |before| + j
    {
      assert (before + lists[i])[|before| + j] == lists[i][j];
      assert all[|before| + j] == |before| + j;
    }
  }

  lemma ChunkPart<T>(d: Proto<T>, n: nat, ranges: seq<seq<nat>>, i: nat)
    requires Rows(d, n) && AllWithin(ranges, n) && i < |ranges| && Flatten(ranges) == Range(0, n)
    ensures Start(ranges, i) + |ranges[i]| == Start(ranges, i + 1) <= n
    ensures Proto(PickColumns(d.tensors, n, ranges[i]), SliceColumns(d.others, Start(ranges, i), Start(ranges, i + 1)))
         == Picked(d, n, ranges[i])
  {
    PieceIsRange(ranges, n, i);
    SliceIsPicked(d, n, Start(ranges, i), Start(ranges, i + 1));
  }

  lemma ChunksJoin<T>(d: Proto<T>, n: nat, chunks: nat, parts: seq<Proto<T>>)
    requires Rows(d, n) && chunks > 0 && parts != [] && Parts(d, n, ChunkRanges(n, chunks), parts)
    ensures Alike(parts) && Concat(parts) == d
  {
    ChunkRangesJoin(n, chunks);
    ConcatOfParts(d, n, ChunkRanges(n, chunks), parts);
    PickAll(d, n);
  }

  method CutOne<T>(d: Proto<T>, n: nat, ranges: seq<seq<nat>>, i: nat, cumsum: nat) returns (part: Proto<T>)
    requires Rows(d, n) && AllWithin(ranges, n) && Flatten(ranges) == Range(0, n)
    requires i < |ranges| && cumsum == Start(ranges, i)
    ensures part == Picked(d, n, ranges[i]) && cumsum + |ranges[i]| == Start(ranges, i + 1)
  {
    ChunkPart(d, n, ranges, i);
    part := Proto(PickColumns(d.tensors, n, ranges[i]), SliceColumns(d.others, cumsum, cumsum + |ranges[i]|));
  }

  /** The loops over the chunks. */
  method CutAt<T>(d: Proto<T>, n: nat, ranges: seq<seq<nat>>) returns (list: seq<Proto<T>>)
    requires Rows(d, n) && AllWithin(ranges, n) && Flatten(ranges) == Range(0, n)
    ensures Parts(d, n, ranges, list)
  {
    list := [];
    var cumsum := 0;
    for i := 0 to |ranges|
      invariant cumsum == Start(ranges, i)
      invariant |list| == i && forall j :: 0 <= j < i ==> list[j] == Picked(d, n, ranges[j])
    {
      var part := CutOne(d, n, ranges, i, cumsum);
      list := list + [part];
      cumsum := cumsum + |ranges[i]|;
    }
  }

  /** DataProto.chunk: the tensors are cut by torch.chunk, the other columns where the sizes of its pieces add up to.
      None where the size is not divisible and padding is off, or where torch makes fewer pieces than asked for. */
  method Chunk<T>(d: Proto<T>, n: nat, chunks: nat, padding: bool) returns (parts: Option<seq<Proto<T>>>)
    requires Rows(d, n) && chunks > 0
    ensures parts.Some? <==> (padding || n % chunks == 0) && (n == 0 || (chunks - 1) * CeilDiv(n, chunks) < n)
    ensures n % chunks == 0 ==> parts.Some?
    ensures parts.Some? ==> |parts.value| == chunks && Parts(d, n, ChunkRanges(n, chunks), parts.value)
    ensures parts.Some? ==> Alike(parts.value) && Concat(parts.value) == d
  {
    ChunkCount(n, chunks);
    if n % chunks == 0 {
      EvenChunks(n, chunks, 0);
    }
    if !padding && n % chunks != 0 {
      return None;
    }
    var ranges := ChunkRanges(n, chunks);
    if |ranges| != chunks {
      return None;
    }
    ChunkRangesJoin(n, chunks);
    var list := CutAt(d, n, ranges);
    ChunksJoin(d, n, chunks, list);
    parts := Some(list);
  }

  // ----- repeat -----

  function Copies<T>(x: T, times: nat): seq<T> {
    seq(times, i => x)
  }

  /** repeat_interleave, np.repeat */
  function Interleaved<T>(col: seq<T>, times: nat): seq<T> {
    if col == [] then [] else Interleaved(col[..|col| - 1], times) + Copies(col[|col| - 1], times)
  }

  /** np.tile, and expand with reshape */
  function Tiled<T>(col: seq<T>, times: nat): seq<T> {
    if times == 0 then [] else Tiled(col, times - 1) + col
  }

  function DivIndices(n: nat, times: nat): (idx: seq<nat>)
    ensures |idx| == n * times && Within(idx, n)
    ensures forall i :: 0 <= i < n * times ==> times > 0 && idx[i] == i / times
  {
    DivWithin(n, times);
    seq(n * times, i requires 0 <= i < n * times => i / times)
  }

  lemma DivWithin(n: nat, times: nat)
    ensures times == 0 ==> n * times == 0
    ensures forall i: nat :: i < n * times ==> times > 0 && i / times < n
  {
    forall i: nat | i < n * times
      ensures times > 0 && i / times < n
    {
      if times > 0 {
        assert i == i / times * times + i % times;
        MulLess(i / times, n, times);
      }
    }
  }

  lemma {:induction false} InterleavedLength<T>(col: seq<T>, times: nat)
    ensures |Interleaved(col, times)| == |col| * times
    decreases |col|
  {
    if col != [] {
      InterleavedLength(col[..|col| - 1], times);
      MulStep(|col| - 1, times);
    }
  }

  lemma {:induction false} InterleavedAt<T>(col: seq<T>, times: nat, i: nat)
    requires i < |Interleaved(col, times)|
    ensures times > 0 && i / times < |col| && Interleaved(col, times)[i] == col[i / times]
    decreases |col|
  {
    var m := |col| - 1;
    InterleavedLength(col[..m], times);
    if i < m * times {
      InterleavedAt(col[..m], times, i);
    } else {
      DivUnique(m, times, i - m * times);
    }
  }

  lemma InterleavedIsPicked<T>(col: seq<T>, times: nat)
    ensures Interleaved(col, times) == Pick(col, DivIndices(|col|, times))
  {
    InterleavedLength(col, times);
    var interleaved, idx := Interleaved(col, times), DivIndices(|col|, times);
    forall i | 0 <= i < |interleaved|
      ensures interleaved[i] == col[idx[i]]
    {
      InterleavedAt(col, times, i);
    }
  }

  lemma PickAppend<T>(col: seq<T>, a: seq<nat>, all: seq<nat>)
    requires Within(a, |col|) && all == Range(0, |col|)
    ensures Pick(col, a + all) == Pick(col, a) + col
  {
  }

  lemma {:induction false} TiledIsPicked<T>(col: seq<T>, times: nat)
    requires col != []
    ensures Tiled(col, times) == Pick(col, Cycle(|col|, |col| * times))
  {
    if times > 0 {
      var n, before := |col|, |col| * (times - 1);
      TiledIsPicked(col, times - 1);
      MulStep(times, n);
      DivUnique(times - 1, n, 0);
      assert before % n == 0 && n * times == before + n;
      CycleStep(n, before, n);
      PickAppend(col, Cycle(n, before), Range(0, n));
    }
  }

  function RepeatColumns<T>(cols: Columns<T>, times: nat, interleave: bool): Columns<T> {
    map k | k in cols :: if interleave then Interleaved(cols[k], times) else Tiled(cols[k], times)
  }

  /** DataProto.repeat */
  function Repeat<T>(d: Proto<T>, times: nat, interleave: bool): Proto<T> {
    Proto(RepeatColumns(d.tensors, times, interleave), RepeatColumns(d.others, times, interleave))
  }

  function RepeatIndices(n: nat, times: nat, interleave: bool): (idx: seq<nat>)
    requires n > 0
    ensures Within(idx, n)
  {
    if interleave then DivIndices(n, times) else Cycle(n, n * times)
  }

  lemma RepeatColumnsArePicked<T>(cols: Columns<T>, n: nat, times: nat, interleave: bool)
    requires AllLong(cols, n) && n > 0
    ensures RepeatColumns(cols, times, interleave) == PickColumns(cols, n, RepeatIndices(n, times, interleave))
  {
    forall k | k in cols
      ensures RepeatColumns(cols, times, interleave)[k] == Pick(cols[k], RepeatIndices(n, times, interleave))
    {
      if interleave {
        InterleavedIsPicked(cols[k], times);
      } else {
        TiledIsPicked(cols[k], times);
      }
    }
  }

  /** Interleaved, row i of the result is row i / times; tiled, it is row i % n. */
  lemma RepeatIsPicked<T>(d: Proto<T>, n: nat, times: nat, interleave: bool)
    requires Rows(d, n) && n > 0
    ensures Repeat(d, times, interleave) == Picked(d, n, RepeatIndices(n, times, interleave))
  {
    RepeatColumnsArePicked(d.tensors, n, times, interleave);
    RepeatColumnsArePicked(d.others, n, times, interleave);
  }

  /** The same entry by entry. */
  lemma RepeatTakes<T>(d: Proto<T>, n: nat, times: nat, interleave: bool, idx: seq<nat>)
    requires Rows(d, n) && n > 0 && |idx| == n * times
    requires forall i :: 0 <= i < n * times ==> times > 0 && idx[i] == if interleave then i / times else i % n
    ensures ColumnsTake(Repeat(d, times, interleave).tensors, d.tensors, idx)
    ensures ColumnsTake(Repeat(d, times, interleave).others, d.others, idx)
  {
    RepeatIsPicked(d, n, times, interleave);
    assert idx == RepeatIndices(n, times, interleave);
    PickedTakes(d, n, idx);
  }

  // ----- fold and unfold -----

  /** The groups of `size` rows from row lo on. */
  function FoldColumn<T>(col: seq<T>, lo: nat, groups: nat, size: nat): seq<seq<T>>
    decreases groups
  {
    if groups == 0 || |col| < lo + size then []
    else [col[lo..lo + size]] + FoldColumn(col, lo + size, groups - 1, size)
  }

  function FoldColumns<T>(cols: Columns<T>, groups: nat, size: nat): Columns<seq<T>> {
    map k | k in cols :: FoldColumn(cols[k], 0, groups, size)
  }

  /** fold_batch_dim; None for its assertion. */
  function Fold<T>(d: Proto<T>, n: nat, groups: nat): Option<Proto<seq<T>>> {
    if groups == 0 || n % groups != 0 then None
    else Some(Proto(FoldColumns(d.tensors, groups, n / groups), FoldColumns(d.others, groups, n / groups)))
  }

  function UnfoldColumns<T>(cols: Columns<seq<T>>): Columns<T> {
    map k | k in cols :: Flatten(cols[k])
  }

  /** unfold_batch_dim */
  function Unfold<T>(d: Proto<seq<T>>): Proto<T> {
    Proto(UnfoldColumns(d.tensors), UnfoldColumns(d.others))
  }

  lemma {:induction false} FlattenFold<T>(col: seq<T>, lo: nat, groups: nat, size: nat)
    requires lo <= |col| && |col| - lo == groups * size
    ensures Flatten(FoldColumn(col, lo, groups, size)) == col[lo..]
    ensures |FoldColumn(col, lo, groups, size)| == groups
    decreases groups
  {
    if groups > 0 {
      MulStep(groups, size);
      MulMono(1, groups, size);
      FlattenFold(col, lo + size, groups - 1, size);
      FlattenCons(col[lo..lo + size], FoldColumn(col, lo + size, groups - 1, size));
      Adjacent(col, lo, lo + size);
    }
  }

  /** Row j of group g is row g * size + j. */
  lemma {:induction false} FoldColumnAt<T>(col: seq<T>, lo: nat, groups: nat, size: nat, g: nat)
    requires lo <= |col| && |col| - lo == groups * size && g < groups
    ensures g < |FoldColumn(col, lo, groups, size)| && lo + g * size + size <= |col|
    ensures FoldColumn(col, lo, groups, size)[g] == col[lo + g * size..lo + g * size + size]
    decreases groups
  {
    MulStep(groups, size);
    MulMono(1, groups, size);
    if g > 0 {
      MulStep(g, size);
      FoldColumnAt(col, lo + size, groups - 1, size, g - 1);
    }
  }

  lemma UnfoldColumnsUndoes<T>(cols: Columns<T>, n: nat, groups: nat, size: nat)
    requires AllLong(cols, n) && n == groups * size
    ensures UnfoldColumns(FoldColumns(cols, groups, size)) == cols && AllLong(FoldColumns(cols, groups, size), groups)
  {
    forall k | k in cols
      ensures Flatten(FoldColumn(cols[k], 0, groups, size)) == cols[k]
      ensures |FoldColumn(cols[k], 0, groups, size)| == groups
    {
      FlattenFold(cols[k], 0, groups, size);
    }
  }

  /** Group by group. */
  predicate ColumnsFold<T(==)>(folded: Columns<seq<T>>, cols: Columns<T>, groups: nat, size: nat) {
    && folded.Keys == cols.Keys
    && forall k, g {:trigger GroupAt(folded[k], cols[k], g, size)} :: k in cols && 0 <= g < groups ==>
         GroupAt(folded[k], cols[k], g, size)
  }

  predicate GroupAt<T(==)>(groups: seq<seq<T>>, col: seq<T>, g: nat, size: nat) {
    g < |groups| && g * size + size <= |col| && groups[g] == col[g * size..g * size + size]
  }

  lemma FoldedColumns<T>(cols: Columns<T>, n: nat, groups: nat, size: nat)
    requires AllLong(cols, n) && n == groups * size
    ensures ColumnsFold(FoldColumns(cols, groups, size), cols, groups, size)
  {
    var folded := FoldColumns(cols, groups, size);
    forall k, g | k in cols && 0 <= g < groups
      ensures GroupAt(folded[k], cols[k], g, size)
    {
      FoldColumnAt(cols[k], 0, groups, size, g);
    }
  }

  /** Unfolding gives back what was folded; folding works for any number of groups that divides the rows. */
  lemma UnfoldUndoesFold<T>(d: Proto<T>, n: nat, groups: nat)
    requires Rows(d, n) && groups > 0
    ensures Fold(d, n, groups).Some? <==> n % groups == 0
    ensures n % groups == 0 ==> Unfold(Fold(d, n, groups).value) == d && Rows(Fold(d, n, groups).value, groups)
    ensures n % groups == 0 ==>
              && ColumnsFold(Fold(d, n, groups).value.tensors, d.tensors, groups, n / groups)
              && ColumnsFold(Fold(d, n, groups).value.others, d.others, groups, n / groups)
  {
    if n % groups == 0 {
      FoldedColumns(d.tensors, n, groups, n / groups);
      FoldedColumns(d.others, n, groups, n / groups);
      assert n == groups * (n / groups);
      UnfoldColumnsUndoes(d.tensors, n, groups, n / groups);
      UnfoldColumnsUndoes(d.others, n, groups, n / groups);
    }
  }
}
