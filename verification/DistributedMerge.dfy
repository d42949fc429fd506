/** The distributed merger: every rank merges its own pieces, with layer numbers that begin where the shards of the
    ranks before it end. */
module DistributedMerge {
  import opened LayerNumbering
  import opened SaveFiles

  // ----- moving -----

  /** `moved` says of this name what the piece under its new names says. */
  predicate MovedAt<T(==)>(piece: Dict<T>, offset: nat, moved: Dict<T>, name: Name) {
    && (name in moved <==> InMoved(piece, offset, name))
    && (name in moved ==> moved[name] == piece[Name(name.number - offset, name.rest)])
  }

  ghost predicate IsMoved<T>(piece: Dict<T>, offset: nat, moved: Dict<T>) {
    forall name {:trigger MovedAt(piece, offset, moved, name)} :: MovedAt(piece, offset, moved, name)
  }

  lemma MovedPieceIs<T>(piece: Dict<T>, offset: nat)
    ensures IsMoved(piece, offset, MovedPiece(piece, offset))
  {
    forall name
      ensures MovedAt(piece, offset, MovedPiece(piece, offset), name)
    {
      MovedPieceHas(piece, offset, name);
    }
  }

  lemma MovedIsUnique<T>(piece: Dict<T>, offset: nat, x: Dict<T>, y: Dict<T>)
    requires IsMoved(piece, offset, x) && IsMoved(piece, offset, y)
    ensures x == y
  {
    forall name
      ensures name in x <==> name in y
      ensures name in x ==> x[name] == y[name]
    {
      assert MovedAt(piece, offset, x, name) && MovedAt(piece, offset, y, name);
    }
  }

  lemma MoveTwice<T>(piece: Dict<T>, a: nat, once: Dict<T>, b: nat, twice: Dict<T>, c: nat)
    requires IsMoved(piece, a, once) && IsMoved(once, b, twice) && c == a + b
    ensures IsMoved(piece, c, twice)
  {
    forall name
      ensures MovedAt(piece, c, twice, name)
    {
      assert MovedAt(once, b, twice, name);
      if name.number >= b {
        assert MovedAt(piece, a, once, Name(name.number - b, name.rest));
      }
    }
  }

  lemma MoveSum<T>(x: Dict<T>, y: Dict<T>, offset: nat, movedX: Dict<T>, movedY: Dict<T>)
    requires IsMoved(x, offset, movedX) && IsMoved(y, offset, movedY)
    ensures IsMoved(x + y, offset, movedX + movedY)
  {
    forall name
      ensures MovedAt(x + y, offset, movedX + movedY, name)
    {
      assert MovedAt(x, offset, movedX, name) && MovedAt(y, offset, movedY, name);
    }
  }

  lemma MovedHasLayer<T>(piece: Dict<T>, offset: nat, number: nat)
    ensures HasLayer(MovedPiece(piece, offset), number) <==> number >= offset && HasLayer(piece, number - offset)
  {
    if rest :| Name(number, rest) in MovedPiece(piece, offset) {
      MovedPieceHas(piece, offset, Name(number, rest));
      assert Name(number - offset, rest) in piece;
    }
    if number >= offset && HasLayer(piece, number - offset) {
      var rest :| Name(number - offset, rest) in piece;
      MovedPieceHas(piece, offset, Name(number, rest));
    }
  }

  // ----- one rank -----

  ghost predicate Merging<T>(start: nat, state: Dict<T>, placed: seq<Placed<T>>, counts: seq<nat>, layersCum: nat) {
    && WellPlaced(placed, counts) && IsMoved(Merged(placed), start, state)
    && layersCum == start + Offset(counts, |counts|)
  }

  /** One more piece, moved at once as far as the merge of all of them is. */
  lemma AddPiece<T>(start: nat, state: Dict<T>, merged: Dict<T>, piece: Dict<T>, offset: nat, layersCum: nat)
    requires IsMoved(merged, start, state) && layersCum == start + offset
    ensures IsMoved(merged + MovedPiece(piece, offset), start, state + MovedPiece(piece, layersCum))
  {
    var once, both := MovedPiece(piece, offset), MovedPiece(piece, layersCum);
    MovedPieceIs(piece, offset);
    MovedPieceIs(piece, layersCum);
    AddMoved(start, state, merged, piece, offset, once, layersCum, both);
  }

  lemma AddMoved<T>(start: nat, state: Dict<T>, merged: Dict<T>, piece: Dict<T>, offset: nat, once: Dict<T>,
                    layersCum: nat, both: Dict<T>)
    requires IsMoved(merged, start, state) && layersCum == start + offset
    requires IsMoved(piece, offset, once) && IsMoved(piece, layersCum, both)
    ensures IsMoved(merged + once, start, state + both)
  {
    var twice := MovedPiece(once, start);
    MovedPieceIs(once, start);
    MoveTwice(piece, offset, once, start, twice, layersCum);
    MovedIsUnique(piece, layersCum, twice, both);
    MoveSum(merged, once, start, state, twice);
  }

  lemma MergingStep<T>(start: nat, state: Dict<T>, placed: seq<Placed<T>>, counts: seq<nat>, layersCum: nat,
                       piece: Dict<T>, count: nat)
    requires Merging(start, state, placed, counts, layersCum) && HasCount(piece, count)
    ensures var next, nexts := placed + [Placed(piece, Offset(counts, |counts|))], counts + [count];
            && Merging(start, state + MovedPiece(piece, layersCum), next, nexts, layersCum + Step(count))
            && Pieces(next) == Pieces(placed) + [piece]
  {
    ProgressStep(placed, counts, piece, count);
    AddPiece(start, state, Merged(placed), piece, Offset(counts, |counts|), layersCum);
  }

  lemma MergingStarts<T>(start: nat)
    ensures Merging<T>(start, map[], [], [], start)
  {
    assert Merged<T>([]) == map[];
    var none: Dict<T> := map[];
    assert forall name :: MovedAt(none, start, none, name);
  }

  lemma MergingIs<T>(start: nat, state: Dict<T>, placed: seq<Placed<T>>, counts: seq<nat>, layersCum: nat)
    requires Merging(start, state, placed, counts, layersCum)
    ensures state == MovedPiece(Merged(placed), start)
  {
    MovedPieceIs(Merged(placed), start);
    MovedIsUnique(Merged(placed), start, state, MovedPiece(Merged(placed), start));
  }

  /** The loop over the pieces of a rank whose layers begin at `start`. */
  method MergeRank<T>(pieces: seq<Dict<T>>, start: nat)
    returns (state: Dict<T>, ghost placed: seq<Placed<T>>, ghost counts: seq<nat>)
    ensures WellPlaced(placed, counts) && Pieces(placed) == pieces
    ensures state == MovedPiece(Merged(placed), start)
  {
    state, placed, counts := map[], [], [];
    var layersCum := start;
    MergingStarts<T>(start);
    for k := 0 to |pieces|
      invariant Merging(start, state, placed, counts, layersCum) && Pieces(placed) == pieces[..k]
    {
      var step;
      ghost var count, before := 0, state;
      state, step, count := MergePiece(state, pieces[k], layersCum);
      MergingStep(start, before, placed, counts, layersCum, pieces[k], count);
      placed, counts := placed + [Placed(pieces[k], Offset(counts, |counts|))], counts + [count];
      layersCum := layersCum + step;
      assert pieces[..k + 1] == pieces[..k] + [pieces[k]];
    }
    assert pieces[..|pieces|] == pieces;
    MergingIs(start, state, placed, counts, layersCum);
  }

  // ----- all ranks -----

  /** What rank r saves: its merged pieces `locals[r]` from the layer on where the shards before it end. */
  function Saved<T>(locals: seq<Dict<T>>, shards: seq<nat>, r: nat): Dict<T>
    requires r < |locals| == |shards|
  {
    MovedPiece(locals[r], SumTo(shards, r))
  }

  /** Rank r saves exactly the layers of its shard if and only if its pieces have exactly so many. */
  lemma SavedLayersIff<T>(locals: seq<Dict<T>>, shards: seq<nat>, r: nat)
    requires r < |locals| == |shards|
    ensures HasExactly(locals[r], shards[r]) <==>
              forall number: nat :: HasLayer(Saved(locals, shards, r), number) <==> HasLayers(shards, r, number)
  {
    var first := SumTo(shards, r);
    forall number: nat
      ensures HasLayer(Saved(locals, shards, r), number) <==> number >= first && HasLayer(locals[r], number - first)
    {
      MovedHasLayer(locals[r], first, number);
    }
    if forall number: nat :: HasLayer(Saved(locals, shards, r), number) <==> HasLayers(shards, r, number) {
      forall number: nat
        ensures HasLayer(locals[r], number) <==> number < shards[r]
      {
        assert HasLayer(Saved(locals, shards, r), first + number) <==> HasLayers(shards, r, first + number);
      }
    }
  }

  /** Every rank's merged pieces have exactly the layers of its shard, from 0 on. */
  ghost predicate ShardsMatch<T>(locals: seq<Dict<T>>, shards: seq<nat>) {
    |locals| == |shards| && forall r :: 0 <= r < |locals| ==> HasExactly(locals[r], shards[r])
  }

  /** Then no two ranks save the same name. */
  lemma RanksAreDisjoint<T>(locals: seq<Dict<T>>, shards: seq<nat>, r: nat, q: nat)
    requires ShardsMatch(locals, shards) && r < |locals| && q < |locals| && r != q
    ensures Saved(locals, shards, r).Keys !! Saved(locals, shards, q).Keys
  {
    forall name | name in Saved(locals, shards, r) && name in Saved(locals, shards, q)
      ensures false
    {
      NameIsInShard(locals, shards, r, name);
      NameIsInShard(locals, shards, q, name);
      OneRankAtMost(shards, r, q, name.number);
    }
  }

  lemma NameIsInShard<T>(locals: seq<Dict<T>>, shards: seq<nat>, r: nat, name: Name)
    requires ShardsMatch(locals, shards) && r < |locals| && name in Saved(locals, shards, r)
    ensures HasLayers(shards, r, name.number)
  {
    SavedLayersIff(locals, shards, r);
    assert Name(name.number, name.rest) in Saved(locals, shards, r);
    assert HasLayer(Saved(locals, shards, r), name.number);
  }

  ghost predicate SomeoneSaves<T>(locals: seq<Dict<T>>, shards: seq<nat>, number: nat)
    requires |locals| == |shards|
  {
    exists r: nat :: r < |locals| && HasLayer(Saved(locals, shards, r), number)
  }

  /** All ranks together save exactly the layers 0 to L - 1, and every tensor of a rank under its new name. */
  lemma RanksSaveTheModel<T>(locals: seq<Dict<T>>, shards: seq<nat>)
    requires ShardsMatch(locals, shards)
    ensures forall number: nat :: SomeoneSaves(locals, shards, number) <==> number < SumTo(shards, |shards|)
    ensures forall r: nat, name :: r < |locals| && name in locals[r] ==>
              && Moved(name, SumTo(shards, r)) in Saved(locals, shards, r)
              && Saved(locals, shards, r)[Moved(name, SumTo(shards, r))] == locals[r][name]
  {
    forall number: nat
      ensures SomeoneSaves(locals, shards, number) <==> number < SumTo(shards, |shards|)
    {
      RanksTileTheLayers(shards, number);
      forall r: nat | r < |locals|
        ensures HasLayer(Saved(locals, shards, r), number) <==> HasLayers(shards, r, number)
      {
        SavedLayersIff(locals, shards, r);
      }
    }
    forall r: nat, name | r < |locals| && name in locals[r]
      ensures Moved(name, SumTo(shards, r)) in Saved(locals, shards, r)
      ensures Saved(locals, shards, r)[Moved(name, SumTo(shards, r))] == locals[r][name]
    {
      MovedPieceHas(locals[r], SumTo(shards, r), Moved(name, SumTo(shards, r)));
    }
  }
}
