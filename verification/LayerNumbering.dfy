/** From local layer numbers, one set per pipeline rank and virtual stage, to the layer numbers of the whole model. */
module LayerNumbering {

  // ----- the numbers alone -----

  /** What a piece adds to the running number: its highest local number plus one, and one even if it has no layer. */
  function Step(count: nat): nat {
    if count == 0 then 1 else count
  }

  /** layers_cum when piece k is reached. */
  function Offset(counts: seq<nat>, k: nat): nat
    requires k <= |counts|
  {
    if k == 0 then 0 else Offset(counts, k - 1) + Step(counts[k - 1])
  }

  function SumTo(counts: seq<nat>, k: nat): nat
    requires k <= |counts|
  {
    if k == 0 then 0 else SumTo(counts, k - 1) + counts[k - 1]
  }

  predicate Numbered(counts: seq<nat>, k: nat, local: nat, global: nat) {
    k < |counts| && local < counts[k] && global == Offset(counts, k) + local
  }

  lemma {:induction false} OffsetsGrow(counts: seq<nat>, j: nat, k: nat)
    requires j < k <= |counts|
    ensures Offset(counts, j) + Step(counts[j]) <= Offset(counts, k)
  {
    if j < k - 1 {
      OffsetsGrow(counts, j, k - 1);
    }
  }

  /** No two layers get the same number, whatever the pieces are. */
  lemma NumbersAreDistinct(counts: seq<nat>, j: nat, m: nat, k: nat, n: nat, global: nat)
    requires Numbered(counts, j, m, global) && Numbered(counts, k, n, global)
    ensures j == k && m == n
  {
    if j < k {
      OffsetsGrow(counts, j, k);
    } else if k < j {
      OffsetsGrow(counts, k, j);
    }
  }

  /** A piece without layers comes before one with layers. */
  ghost predicate HasGap(counts: seq<nat>) {
    exists i, j :: GapAt(counts, i, j)
  }

  predicate GapAt(counts: seq<nat>, i: nat, j: nat) {
    i < j < |counts| && counts[i] == 0 && counts[j] > 0
  }

  lemma {:induction false} OffsetIsSum(counts: seq<nat>, k: nat)
    requires k < |counts| && counts[k] > 0 && !HasGap(counts)
    ensures Offset(counts, k) == SumTo(counts, k)
  {
    OffsetIsSumTo(counts, k, k);
  }

  lemma {:induction false} OffsetIsSumTo(counts: seq<nat>, i: nat, k: nat)
    requires i <= k < |counts| && counts[k] > 0 && !HasGap(counts)
    ensures Offset(counts, i) == SumTo(counts, i)
  {
    if i > 0 {
      assert !GapAt(counts, i - 1, k);
      OffsetIsSumTo(counts, i - 1, k);
    }
  }

  lemma {:induction false} SumGrows(counts: seq<nat>, j: nat, k: nat)
    requires j <= k <= |counts|
    ensures SumTo(counts, j) <= SumTo(counts, k)
  {
    if j < k {
      SumGrows(counts, j, k - 1);
    }
  }

  lemma {:induction false} OffsetAtLeastSum(counts: seq<nat>, k: nat)
    requires k <= |counts|
    ensures Offset(counts, k) >= SumTo(counts, k)
    ensures (exists i :: 0 <= i < k && counts[i] == 0) ==> Offset(counts, k) > SumTo(counts, k)
  {
    if k > 0 {
      OffsetAtLeastSum(counts, k - 1);
    }
  }

  /** The layer with a given number, found by going through the pieces. */
  lemma {:induction false} Locate(counts: seq<nat>, k: nat, global: nat) returns (piece: nat)
    requires k <= |counts| && global < SumTo(counts, k)
    ensures piece < k && SumTo(counts, piece) <= global < SumTo(counts, piece) + counts[piece]
  {
    if global >= SumTo(counts, k - 1) {
      piece := k - 1;
    } else {
      piece := Locate(counts, k - 1, global);
    }
  }

  lemma {:induction false} LastNonempty(counts: seq<nat>, k: nat, j: nat) returns (last: nat)
    requires j < k <= |counts| && counts[j] > 0
    ensures j <= last < k && counts[last] > 0 && SumTo(counts, k) == SumTo(counts, last) + counts[last]
  {
    if counts[k - 1] > 0 {
      last := k - 1;
    } else {
      last := LastNonempty(counts, k - 1, j);
    }
  }

  ghost predicate IsNumber(counts: seq<nat>, global: nat) {
    exists k, local :: Numbered(counts, k, local, global)
  }

  /** The numbers handed out are exactly 0 to L - 1 for L layers if and only if no empty piece comes before a piece with
      layers. */
  lemma NumbersAreAllIff(counts: seq<nat>)
    ensures !HasGap(counts) <==> forall global: nat :: IsNumber(counts, global) <==> global < SumTo(counts, |counts|)
  {
    var total := SumTo(counts, |counts|);
    if HasGap(counts) {
      var i: nat, j: nat :| GapAt(counts, i, j);
      var last := LastNonempty(counts, |counts|, j);
      OffsetAtLeastSum(counts, last);
      assert 0 <= i < last && counts[i] == 0;
      var global := Offset(counts, last) + counts[last] - 1;
      assert Numbered(counts, last, counts[last] - 1, global);
      assert IsNumber(counts, global) && global >= total;
    } else {
      forall global: nat
        ensures IsNumber(counts, global) <==> global < total
      {
        if IsNumber(counts, global) {
          var k: nat, local: nat :| Numbered(counts, k, local, global);
          OffsetIsSum(counts, k);
          SumGrows(counts, k + 1, |counts|);
        }
        if global < total {
          var k := Locate(counts, |counts|, global);
          OffsetIsSum(counts, k);
          assert Numbered(counts, k, global - SumTo(counts, k), global);
        }
      }
    }
  }

  // ----- the merged dictionary -----

  /** A layer's parameter: the number in its name and the rest of the name. */
  datatype Name = Name(number: nat, rest: string)

  type Dict<T> = map<Name, T>

  function Moved(name: Name, offset: nat): Name {
    Name(name.number + offset, name.rest)
  }

  predicate InMoved<T>(piece: Dict<T>, offset: nat, name: Name) {
    name.number >= offset && Name(name.number - offset, name.rest) in piece
  }

  function MovedNames(names: set<Name>, offset: nat): set<Name> {
    set name | name in names :: Moved(name, offset)
  }

  /** One piece under its new names. */
  function MovedPiece<T>(piece: Dict<T>, offset: nat): Dict<T> {
    map name | name in MovedNames(piece.Keys, offset) :: piece[Name(name.number - offset, name.rest)]
  }

  lemma MovedPieceHas<T>(piece: Dict<T>, offset: nat, name: Name)
    ensures name in MovedPiece(piece, offset) <==> InMoved(piece, offset, name)
    ensures name in MovedPiece(piece, offset) ==>
              MovedPiece(piece, offset)[name] == piece[Name(name.number - offset, name.rest)]
  {
    if InMoved(piece, offset, name) {
      var local := Name(name.number - offset, name.rest);
      assert local in piece.Keys && Moved(local, offset) == name;
    }
  }

  /** The highest local layer number plus one. */
  ghost predicate HasCount<T>(piece: Dict<T>, count: nat) {
    && (forall name :: name in piece ==> name.number < count)
    && (count > 0 ==> HasLayer(piece, count - 1))
  }

  ghost predicate HasLayer<T>(dict: Dict<T>, number: nat) {
    exists rest :: Name(number, rest) in dict
  }

  /** A piece and the number its layers are moved up by. */
  datatype Placed<T> = Placed(piece: Dict<T>, offset: nat)

  /** One piece after the other is written into the dictionary. */
  function Merged<T>(placed: seq<Placed<T>>): Dict<T>
    decreases |placed|
  {
    if placed == [] then map[]
    else
      var last := placed[|placed| - 1];
      Merged(placed[..|placed| - 1]) + MovedPiece(last.piece, last.offset)
  }

  predicate PlacedAt<T>(placed: seq<Placed<T>>, counts: seq<nat>, k: nat)
    requires k < |placed| && k < |counts|
  {
    placed[k].offset == Offset(counts, k)
  }

  /** Every piece is placed where the counts of the pieces before it say. */
  ghost predicate WellPlaced<T>(placed: seq<Placed<T>>, counts: seq<nat>) {
    && |counts| == |placed|
    && (forall k :: 0 <= k < |placed| ==> HasCount(placed[k].piece, counts[k]))
    && (forall k {:trigger PlacedAt(placed, counts, k)} :: 0 <= k < |placed| ==> PlacedAt(placed, counts, k))
  }

  lemma {:induction false} OffsetPrefix(counts: seq<nat>, more: seq<nat>, k: nat)
    requires k <= |counts|
    ensures Offset(counts + more, k) == Offset(counts, k)
  {
    if k > 0 {
      OffsetPrefix(counts, more, k - 1);
    }
  }

  lemma PlaceOneMore<T>(placed: seq<Placed<T>>, counts: seq<nat>, piece: Dict<T>, count: nat)
    requires WellPlaced(placed, counts) && HasCount(piece, count)
    ensures var next, nexts := placed + [Placed(piece, Offset(counts, |counts|))], counts + [count];
            WellPlaced(next, nexts) && Offset(nexts, |nexts|) == Offset(counts, |counts|) + Step(count)
  {
    var next, nexts := placed + [Placed(piece, Offset(counts, |counts|))], counts + [count];
    OffsetPrefix(counts, [count], |counts|);
    forall k | 0 <= k < |next|
      ensures PlacedAt(next, nexts, k)
    {
      OffsetPrefix(counts, [count], k);
      assert k < |placed| ==> PlacedAt(placed, counts, k);
    }
  }

  lemma LastIsPlaced<T>(placed: seq<Placed<T>>, counts: seq<nat>)
    requires WellPlaced(placed, counts) && placed != []
    ensures var n := |placed| - 1;
            && WellPlaced(placed[..n], counts[..n])
            && placed[n].offset == Offset(counts, n) && HasCount(placed[n].piece, counts[n])
            && Merged(placed) == Merged(placed[..n]) + MovedPiece(placed[n].piece, Offset(counts, n))
  {
    var n := |placed| - 1;
    assert PlacedAt(placed, counts, n);
    forall k | 0 <= k < n
      ensures PlacedAt(placed[..n], counts[..n], k)
    {
      assert PlacedAt(placed, counts, k);
      assert counts[..n] + counts[n..] == counts;
      OffsetPrefix(counts[..n], counts[n..], k);
    }
  }

  lemma LowerNamesStay<T>(state: Dict<T>, piece: Dict<T>, offset: nat, name: Name)
    requires name in state && name.number < offset
    ensures name in state + MovedPiece(piece, offset) && (state + MovedPiece(piece, offset))[name] == state[name]
  {
    MovedPieceHas(piece, offset, name);
  }

  lemma MovedNamesAreThere<T>(state: Dict<T>, piece: Dict<T>, offset: nat, name: Name)
    requires name in piece
    ensures var moved, merged := Moved(name, offset), state + MovedPiece(piece, offset);
            moved in merged && merged[moved] == piece[name]
  {
    MovedPieceHas(piece, offset, Moved(name, offset));
  }

  /** Numbers start at 0, and a piece adds its highest local number plus one, or one if it has no layer. */
  lemma OffsetsFollow<T>(placed: seq<Placed<T>>, counts: seq<nat>, k: nat)
    requires WellPlaced(placed, counts) && k < |placed|
    ensures placed[k].offset ==
            if k == 0 then 0 else placed[k - 1].offset + if counts[k - 1] == 0 then 1 else counts[k - 1]
  {
    assert PlacedAt(placed, counts, k);
    assert k > 0 ==> PlacedAt(placed, counts, k - 1);
  }

  /** No layer's tensor is lost or overwritten, whatever the pieces are. */
  lemma {:induction false} LayersKeepTheirTensors<T>(placed: seq<Placed<T>>, counts: seq<nat>, k: nat, name: Name)
    requires WellPlaced(placed, counts) && k < |placed| && name in placed[k].piece
    ensures var moved := Moved(name, placed[k].offset);
            moved in Merged(placed) && Merged(placed)[moved] == placed[k].piece[name]
    decreases |placed|
  {
    var n := |placed| - 1;
    LastIsPlaced(placed, counts);
    if k == n {
      MovedNamesAreThere(Merged(placed[..n]), placed[n].piece, Offset(counts, n), name);
    } else {
      LayersKeepTheirTensors(placed[..n], counts[..n], k, name);
      OffsetsGrow(counts, k, n);
      assert PlacedAt(placed, counts, k);
      assert HasCount(placed[k].piece, counts[k]);
      LowerNamesStay(Merged(placed[..n]), placed[n].piece, Offset(counts, n), Moved(name, placed[k].offset));
    }
  }

  /** A tensor of the first piece keeps its number; one of a later piece is numbered behind the piece before. */
  lemma TensorsFollow<T>(placed: seq<Placed<T>>, counts: seq<nat>, k: nat, number: nat, rest: string)
    requires WellPlaced(placed, counts) && k < |placed| && Name(number, rest) in placed[k].piece
    ensures var offset := if k == 0 then 0
                          else placed[k - 1].offset + if counts[k - 1] == 0 then 1 else counts[k - 1];
            && Name(offset + number, rest) in Merged(placed)
            && Merged(placed)[Name(offset + number, rest)] == placed[k].piece[Name(number, rest)]
  {
    OffsetsFollow(placed, counts, k);
    var offset := placed[k].offset;
    assert Moved(Name(number, rest), offset) == Name(offset + number, rest);
    LayersKeepTheirTensors(placed, counts, k, Name(number, rest));
  }

  /** And every layer number in the result is one of the numbers handed out. */
  lemma {:induction false} LayersComeFromPieces<T>(placed: seq<Placed<T>>, counts: seq<nat>, name: Name)
    returns (k: nat)
    requires WellPlaced(placed, counts) && name in Merged(placed)
    ensures k < |placed| && placed[k].offset <= name.number
    ensures Numbered(counts, k, name.number - placed[k].offset, name.number)
    decreases |placed|
  {
    var n := |placed| - 1;
    LastIsPlaced(placed, counts);
    MovedPieceHas(placed[n].piece, Offset(counts, n), name);
    if InMoved(placed[n].piece, Offset(counts, n), name) {
      k := n;
    } else {
      k := LayersComeFromPieces(placed[..n], counts[..n], name);
      assert PlacedAt(placed, counts, k);
    }
  }

  /** Every piece has all of its layers. */
  ghost predicate Contiguous<T>(placed: seq<Placed<T>>, counts: seq<nat>)
    requires |counts| == |placed|
  {
    forall k, l: nat :: 0 <= k < |placed| && l < counts[k] ==> HasLayer(placed[k].piece, l)
  }

  lemma MergedLayerIsNumber<T>(placed: seq<Placed<T>>, counts: seq<nat>, number: nat)
    requires WellPlaced(placed, counts) && HasLayer(Merged(placed), number)
    ensures IsNumber(counts, number)
  {
    var rest :| Name(number, rest) in Merged(placed);
    var k := LayersComeFromPieces(placed, counts, Name(number, rest));
  }

  lemma LayerIsKept<T>(placed: seq<Placed<T>>, counts: seq<nat>, k: nat, local: nat)
    requires WellPlaced(placed, counts) && k < |placed| && HasLayer(placed[k].piece, local)
    ensures HasLayer(Merged(placed), placed[k].offset + local)
  {
    var rest :| Name(local, rest) in placed[k].piece;
    var moved := Name(placed[k].offset + local, rest);
    assert Moved(Name(local, rest), placed[k].offset) == moved;
    LayersKeepTheirTensors(placed, counts, k, Name(local, rest));
    NameShowsLayer(Merged(placed), moved);
  }

  lemma NameShowsLayer<T>(dict: Dict<T>, name: Name)
    requires name in dict
    ensures HasLayer(dict, name.number)
  {
    assert Name(name.number, name.rest) in dict;
  }

  lemma NumberIsMergedLayer<T>(placed: seq<Placed<T>>, counts: seq<nat>, number: nat)
    requires WellPlaced(placed, counts) && Contiguous(placed, counts) && IsNumber(counts, number)
    ensures HasLayer(Merged(placed), number)
  {
    var k: nat, local: nat :| Numbered(counts, k, local, number);
    assert HasLayer(placed[k].piece, local);
    assert PlacedAt(placed, counts, k);
    LayerIsKept(placed, counts, k, local);
  }

  ghost predicate HasExactly<T>(dict: Dict<T>, layers: nat) {
    forall number: nat :: HasLayer(dict, number) <==> number < layers
  }

  /** The merged model has layers 0 to L - 1 and no others iff no empty piece comes before one with layers. */
  lemma MergedModelIsCompleteIff<T>(placed: seq<Placed<T>>, counts: seq<nat>)
    requires WellPlaced(placed, counts) && Contiguous(placed, counts)
    ensures !HasGap(counts) <==> HasExactly(Merged(placed), SumTo(counts, |counts|))
  {
    NumbersAreAllIff(counts);
    forall number: nat
      ensures HasLayer(Merged(placed), number) <==> IsNumber(counts, number)
    {
      if HasLayer(Merged(placed), number) {
        MergedLayerIsNumber(placed, counts, number);
      }
      if IsNumber(counts, number) {
        NumberIsMergedLayer(placed, counts, number);
      }
    }
  }

  // ----- the loops -----

  /** The order in which the pieces are read: all ranks' first stages, then all ranks' second stages, and so on. */
  function Visited<T>(dicts: seq<seq<Dict<T>>>, v: nat, p: nat): seq<Dict<T>>
    requires p <= |dicts| && forall r :: 0 <= r < |dicts| ==> v + (if p > 0 then 1 else 0) <= |dicts[r]|
    decreases v, p
  {
    if p > 0 then Visited(dicts, v, p - 1) + [dicts[p - 1][v]]
    else if v > 0 then Visited(dicts, v - 1, |dicts|)
    else []
  }

  lemma {:induction false} VisitedCount<T>(dicts: seq<seq<Dict<T>>>, v: nat, p: nat)
    requires p <= |dicts| && forall r :: 0 <= r < |dicts| ==> v + (if p > 0 then 1 else 0) <= |dicts[r]|
    ensures |Visited(dicts, v, p)| == v * |dicts| + p
    decreases v, p
  {
    if p > 0 {
      VisitedCount(dicts, v, p - 1);
    } else if v > 0 {
      VisitedCount(dicts, v - 1, |dicts|);
      assert v * |dicts| == (v - 1) * |dicts| + |dicts|;
    }
  }

  /** Stage w of rank q comes behind w stages of all ranks and the same stage of the ranks before. */
  lemma {:induction false} VisitedAt<T>(dicts: seq<seq<Dict<T>>>, v: nat, p: nat, w: nat, q: nat)
    requires p <= |dicts| && forall r :: 0 <= r < |dicts| ==> v + (if p > 0 then 1 else 0) <= |dicts[r]|
    requires q < |dicts| && (w < v || (w == v && q < p))
    ensures w * |dicts| + q < |Visited(dicts, v, p)|
    ensures Visited(dicts, v, p)[w * |dicts| + q] == dicts[q][w]
    decreases v, p
  {
    if p == 0 {
      VisitedAt(dicts, v - 1, |dicts|, w, q);
    } else if w == v && q == p - 1 {
      VisitedCount(dicts, v, p - 1);
    } else {
      VisitedAt(dicts, v, p - 1, w, q);
    }
  }

  /** Stage v of rank p is the piece with this number. */
  predicate VisitedAs<T(==)>(dicts: seq<seq<Dict<T>>>, placed: seq<Placed<T>>, v: nat, p: nat)
    requires p < |dicts| && v < |dicts[p]|
  {
    v * |dicts| + p < |placed| && placed[v * |dicts| + p].piece == dicts[p][v]
  }

  lemma AllVisited<T>(dicts: seq<seq<Dict<T>>>, placed: seq<Placed<T>>)
    requires dicts != [] && forall r :: 0 <= r < |dicts| ==> |dicts[r]| == |dicts[0]|
    requires Pieces(placed) == Visited(dicts, |dicts[0]|, 0)
    ensures |placed| == |dicts[0]| * |dicts|
    ensures forall v, p {:trigger VisitedAs(dicts, placed, v, p)} :: 0 <= v < |dicts[0]| && 0 <= p < |dicts| ==>
              VisitedAs(dicts, placed, v, p)
  {
    VisitedCount(dicts, |dicts[0]|, 0);
    forall v, p | 0 <= v < |dicts[0]| && 0 <= p < |dicts|
      ensures VisitedAs(dicts, placed, v, p)
    {
      VisitedAt(dicts, |dicts[0]|, 0, v, p);
      assert Pieces(placed)[v * |dicts| + p] == placed[v * |dicts| + p].piece;
    }
  }

  /** With the names in todo still to come. */
  ghost predicate Moving<T>(state: Dict<T>, piece: Dict<T>, offset: nat, todo: set<Name>, merged: Dict<T>) {
    todo <= piece.Keys && merged == state + MovedPiece(piece - todo, offset)
  }

  ghost predicate Handled<T>(piece: Dict<T>, todo: set<Name>, handled: nat) {
    && (forall name :: name in piece && name !in todo ==> name.number <= handled)
    && (handled > 0 ==> HasLayer(piece, handled))
  }

  lemma MoveNothing<T>(state: Dict<T>, piece: Dict<T>, offset: nat, merged: Dict<T>)
    ensures Moving(state, piece, offset, piece.Keys, state)
    ensures Moving(state, piece, offset, {}, merged) ==> merged == state + MovedPiece(piece, offset)
  {
    assert piece - {} == piece;
    assert MovedPiece(piece - piece.Keys, offset) == map[];
  }

  lemma MoveOneMore<T>(state: Dict<T>, piece: Dict<T>, offset: nat, todo: set<Name>, merged: Dict<T>, name: Name)
    requires Moving(state, piece, offset, todo, merged) && name in todo
    ensures Moving(state, piece, offset, todo - {name}, merged[Moved(name, offset) := piece[name]])
  {
    var before, after := MovedPiece(piece - todo, offset), MovedPiece(piece - (todo - {name}), offset);
    forall x
      ensures x in after <==> x in before || x == Moved(name, offset)
      ensures x in after ==> after[x] == if x == Moved(name, offset) then piece[name] else before[x]
    {
      MovedPieceHas(piece - todo, offset, x);
      MovedPieceHas(piece - (todo - {name}), offset, x);
    }
  }

  lemma HandleOneMore<T>(piece: Dict<T>, todo: set<Name>, handled: nat, name: Name)
    requires Handled(piece, todo, handled) && name in todo && name in piece
    ensures Handled(piece, todo - {name}, if handled < name.number then name.number else handled)
  {
    assert Name(name.number, name.rest) in piece;
  }

  lemma HandledIsCount<T>(piece: Dict<T>, handled: nat)
    requires Handled(piece, {}, handled)
    ensures HasCount(piece, if piece == map[] then 0 else handled + 1)
    ensures handled + 1 == Step(if piece == map[] then 0 else handled + 1)
  {
    if piece != map[] {
      var name :| name in piece;
      assert Name(name.number, name.rest) in piece;
    }
  }

  /** The body for one piece: its names under their new numbers, and what it adds to the running number. */
  method MergePiece<T>(state: Dict<T>, piece: Dict<T>, offset: nat)
    returns (merged: Dict<T>, step: nat, ghost count: nat)
    ensures merged == state + MovedPiece(piece, offset)
    ensures HasCount(piece, count) && step == Step(count)
  {
    merged := state;
    var handled: nat := 0;
    var todo := piece.Keys;
    MoveNothing(state, piece, offset, merged);
    while todo != {}
      invariant Moving(state, piece, offset, todo, merged) && Handled(piece, todo, handled)
      decreases |todo|
    {
      var name :| name in todo;
      MoveOneMore(state, piece, offset, todo, merged, name);
      HandleOneMore(piece, todo, handled, name);
      handled := if handled < name.number then name.number else handled;
      merged := merged[Moved(name, offset) := piece[name]];
      todo := todo - {name};
    }
    MoveNothing(state, piece, offset, merged);
    HandledIsCount(piece, handled);
    step, count := handled + 1, if piece == map[] then 0 else handled + 1;
  }

  method MergeStateDicts<T>(dicts: seq<seq<Dict<T>>>)
    returns (state: Dict<T>, ghost placed: seq<Placed<T>>, ghost counts: seq<nat>)
    requires dicts != [] && forall r :: 0 <= r < |dicts| ==> |dicts[r]| == |dicts[0]|
    ensures WellPlaced(placed, counts) && state == Merged(placed)
    ensures |placed| == |dicts[0]| * |dicts|
    ensures forall v, p {:trigger VisitedAs(dicts, placed, v, p)} :: 0 <= v < |dicts[0]| && 0 <= p < |dicts| ==>
              VisitedAs(dicts, placed, v, p)
  {
    state, placed, counts := map[], [], [];
    var layersCum := 0;
    for v := 0 to |dicts[0]|
      invariant Progress(state, placed, counts, layersCum) && Pieces(placed) == Visited(dicts, v, 0)
    {
      for p := 0 to |dicts|
        invariant Progress(state, placed, counts, layersCum) && Pieces(placed) == Visited(dicts, v, p)
      {
        var step;
        ghost var count;
        state, step, count := MergePiece(state, dicts[p][v], layersCum);
        ProgressStep(placed, counts, dicts[p][v], count);
        placed, counts := placed + [Placed(dicts[p][v], layersCum)], counts + [count];
        layersCum := layersCum + step;
      }
    }
    AllVisited(dicts, placed);
  }

  function Pieces<T>(placed: seq<Placed<T>>): seq<Dict<T>> {
    seq(|placed|, k requires 0 <= k < |placed| => placed[k].piece)
  }

  ghost predicate Progress<T>(state: Dict<T>, placed: seq<Placed<T>>, counts: seq<nat>, layersCum: nat) {
    WellPlaced(placed, counts) && state == Merged(placed) && layersCum == Offset(counts, |counts|)
  }

  lemma ProgressStep<T>(placed: seq<Placed<T>>, counts: seq<nat>, piece: Dict<T>, count: nat)
    requires WellPlaced(placed, counts) && HasCount(piece, count)
    ensures var next, nexts := placed + [Placed(piece, Offset(counts, |counts|))], counts + [count];
            && Progress(Merged(placed) + MovedPiece(piece, Offset(counts, |counts|)), next, nexts,
                        Offset(counts, |counts|) + Step(count))
            && Pieces(next) == Pieces(placed) + [piece]
  {
    var next := placed + [Placed(piece, Offset(counts, |counts|))];
    PlaceOneMore(placed, counts, piece, count);
    assert next[..|next| - 1] == placed;
  }
}
