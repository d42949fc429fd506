/** moe_merge.py stacks the expert weights of every layer into one tensor per projection, moe_split.py takes them
    apart again. */
module ExpertStacking {
  import opened Wrappers

  datatype Tensor = Scalar(value: int) | Rows(rows: seq<Tensor>)

  datatype Proj = Gate | Up | Down

  datatype Key =
    | Expert(layer: nat, expert: nat, proj: Proj)  // model.layers.{layer}.mlp.experts.{expert}.{proj}_proj.weight
    | Stacked(layer: nat, proj: Proj)              // model.layers.{layer}.mlp.experts.{proj}_proj
    | Other(name: string)

  type Dict = map<Key, Tensor>

  datatype Pair = Pair(layer: nat, proj: Proj)

  predicate Same(x: Dict, y: Dict, key: Key) {
    (key in x <==> key in y) && (key in x ==> x[key] == y[key])
  }

  // ----- stacking -----

  predicate HasExperts(d: Dict, pair: Pair, n: nat) {
    forall j: nat :: j < n ==> Expert(pair.layer, j, pair.proj) in d
  }

  function StackOf(d: Dict, pair: Pair, n: nat): Tensor
    requires HasExperts(d, pair, n)
  {
    Rows(seq(n, j requires 0 <= j < n => d[Expert(pair.layer, j, pair.proj)]))
  }

  /** What has become of one key once the pairs in `done` are stacked. */
  predicate MergedAt(d: Dict, m: Dict, done: set<Pair>, n: nat, key: Key) {
    match key
    case Expert(i, j, p) => if Pair(i, p) in done && j < n then key !in m else Same(d, m, key)
    case Stacked(i, p) =>
      if Pair(i, p) in done then HasExperts(d, Pair(i, p), n) && key in m && m[key] == StackOf(d, Pair(i, p), n)
      else Same(d, m, key)
    case Other(_) => Same(d, m, key)
  }

  ghost predicate IsMerged(d: Dict, m: Dict, done: set<Pair>, n: nat) {
    forall key {:trigger MergedAt(d, m, done, n, key)} :: MergedAt(d, m, done, n, key)
  }

  /** One inner loop and the stack after it. */
  method StackExperts(m: Dict, pair: Pair, n: nat) returns (result: Option<Dict>)
    ensures result.Some? <==> n > 0 && HasExperts(m, pair, n)
    ensures result.Some? ==> IsMerged(m, result.value, {pair}, n)
  {
    var rest, parts: seq<Tensor> := m, [];
    for j := 0 to n
      invariant HasExperts(m, pair, j)
      invariant |parts| == j && forall k :: 0 <= k < j ==> parts[k] == m[Expert(pair.layer, k, pair.proj)]
      invariant forall key :: key in rest <==>
                  key in m && !(key.Expert? && Pair(key.layer, key.proj) == pair && key.expert < j)
      invariant forall key :: key in rest ==> rest[key] == m[key]
    {
      var key := Expert(pair.layer, j, pair.proj);
      if key !in rest {
        return None;
      }
      parts := parts + [rest[key]];
      rest := rest - {key};
    }
    if n == 0 {
      return None;
    }
    var stacked := rest[Stacked(pair.layer, pair.proj) := Rows(parts)];
    assert parts == seq(n, j requires 0 <= j < n => m[Expert(pair.layer, j, pair.proj)]);
    forall key
      ensures MergedAt(m, stacked, {pair}, n, key)
    {
    }
    result := Some(stacked);
  }

  /** Stacking one pair more. */
  lemma StackOneMore(d: Dict, m: Dict, next: Dict, done: set<Pair>, n: nat, pair: Pair)
    requires IsMerged(d, m, done, n) && pair !in done && IsMerged(m, next, {pair}, n)
    ensures HasExperts(d, pair, n) ==> HasExperts(m, pair, n)
    ensures HasExperts(m, pair, n) ==> HasExperts(d, pair, n) && IsMerged(d, next, done + {pair}, n)
  {
    PairIsUntouched(d, m, done, n, pair);
    if HasExperts(m, pair, n) {
      forall key
        ensures MergedAt(d, next, done + {pair}, n, key)
      {
        assert MergedAt(d, m, done, n, key) && MergedAt(m, next, {pair}, n, key);
      }
    }
  }

  lemma PairIsUntouched(d: Dict, m: Dict, done: set<Pair>, n: nat, pair: Pair)
    requires IsMerged(d, m, done, n) && pair !in done
    ensures HasExperts(d, pair, n) <==> HasExperts(m, pair, n)
    ensures HasExperts(d, pair, n) ==> StackOf(d, pair, n) == StackOf(m, pair, n)
  {
    forall j: nat
      ensures Same(d, m, Expert(pair.layer, j, pair.proj))
    {
      assert MergedAt(d, m, done, n, Expert(pair.layer, j, pair.proj));
    }
  }

  function LayerPairs(i: nat): (pairs: set<Pair>)
    ensures forall pair :: pair in pairs <==> pair.layer == i
  {
    ThreeProjs(i);
    {Pair(i, Gate), Pair(i, Up), Pair(i, Down)}
  }

  lemma ThreeProjs(i: nat)
    ensures forall pair: Pair :: pair.layer == i ==> pair in {Pair(i, Gate), Pair(i, Up), Pair(i, Down)}
  {
    forall pair: Pair | pair.layer == i
      ensures pair in {Pair(i, Gate), Pair(i, Up), Pair(i, Down)}
    {
      match pair.proj
      case Gate =>
      case Up =>
      case Down =>
    }
  }

  /** The pairs of the layers from `start` on and below `end`. */
  function Pairs(start: nat, end: nat): (pairs: set<Pair>)
    ensures forall pair :: pair in pairs <==> start <= pair.layer < end
  {
    if end <= start then {} else Pairs(start, end - 1) + LayerPairs(end - 1)
  }

  predicate HasAllExperts(d: Dict, pairs: set<Pair>, n: nat) {
    forall pair :: pair in pairs ==> HasExperts(d, pair, n)
  }

  /** One pair, as part of the whole. */
  method StackNext(ghost d: Dict, m: Dict, ghost done: set<Pair>, pair: Pair, n: nat) returns (result: Option<Dict>)
    requires IsMerged(d, m, done, n) && pair !in done
    ensures result.Some? <==> n > 0 && HasExperts(d, pair, n)
    ensures result.Some? ==> IsMerged(d, result.value, done + {pair}, n)
  {
    result := StackExperts(m, pair, n);
    PairIsUntouched(d, m, done, n, pair);
    if result.Some? {
      StackOneMore(d, m, result.value, done, n, pair);
    }
  }

  /** The body of the merge loop. */
  method StackLayer(ghost d: Dict, m: Dict, ghost done: set<Pair>, i: nat, n: nat) returns (result: Option<Dict>)
    requires IsMerged(d, m, done, n) && forall pair :: pair in done ==> pair.layer != i
    ensures result.Some? <==> n > 0 && HasAllExperts(d, LayerPairs(i), n)
    ensures result.Some? ==> IsMerged(d, result.value, done + LayerPairs(i), n)
  {
    var gate := StackNext(d, m, done, Pair(i, Gate), n);
    if gate.None? {
      return None;
    }
    var up := StackNext(d, gate.value, done + {Pair(i, Gate)}, Pair(i, Up), n);
    if up.None? {
      return None;
    }
    result := StackNext(d, up.value, done + {Pair(i, Gate)} + {Pair(i, Up)}, Pair(i, Down), n);
    assert done + {Pair(i, Gate)} + {Pair(i, Up)} + {Pair(i, Down)} == done + LayerPairs(i);
  }

  /** moe_merge: layers from `start` on; it fails exactly where an expert is missing, or there is nothing to stack. */
  method MergeExperts(d: Dict, start: nat, layers: nat, n: nat) returns (result: Option<Dict>)
    ensures result.Some? <==> HasAllExperts(d, Pairs(start, layers), n) && (n > 0 || layers <= start)
    ensures result.Some? ==> IsMerged(d, result.value, Pairs(start, layers), n)
  {
    var m := d;
    var i := start;
    while i < layers
      invariant start <= i && (i <= layers || i == start)
      invariant IsMerged(d, m, Pairs(start, i), n)
      invariant HasAllExperts(d, Pairs(start, i), n) && (n > 0 || i == start)
    {
      var next := StackLayer(d, m, Pairs(start, i), i, n);
      if next.None? {
        assert forall pair :: pair in LayerPairs(i) ==> pair in Pairs(start, layers);
        return None;
      }
      m, i := next.value, i + 1;
    }
    assert Pairs(start, i) == Pairs(start, layers);
    result := Some(m);
  }

  // ----- unstacking -----

  /** The stack of a pair, if there is one, has a row for every expert. */
  predicate CanSplit(m: Dict, pair: Pair, n: nat) {
    var key := Stacked(pair.layer, pair.proj);
    key in m ==> n == 0 || (m[key].Rows? && |m[key].rows| >= n)
  }

  /** What has become of one key once the pairs in `done` are taken apart. */
  predicate SplitAt(m: Dict, s: Dict, done: set<Pair>, n: nat, key: Key) {
    match key
    case Expert(i, j, p) =>
      if Pair(i, p) in done && j < n && Stacked(i, p) in m then
        CanSplit(m, Pair(i, p), n) && key in s && s[key] == m[Stacked(i, p)].rows[j]
      else Same(m, s, key)
    case Stacked(i, p) => if Pair(i, p) in done then key !in s else Same(m, s, key)
    case Other(_) => Same(m, s, key)
  }

  ghost predicate IsSplit(m: Dict, s: Dict, done: set<Pair>, n: nat) {
    forall key {:trigger SplitAt(m, s, done, n, key)} :: SplitAt(m, s, done, n, key)
  }

  /** The body of the split loop. */
  method SplitStack(m: Dict, pair: Pair, n: nat) returns (result: Option<Dict>)
    ensures result.Some? <==> CanSplit(m, pair, n)
    ensures result.Some? ==> IsSplit(m, result.value, {pair}, n)
  {
    var stackedKey := Stacked(pair.layer, pair.proj);
    var s := m;
    if stackedKey in m {
      var stacked := m[stackedKey];
      s := m - {stackedKey};
      for j := 0 to n
        invariant j > 0 ==> stacked.Rows? && j <= |stacked.rows|
        invariant forall key :: key in s <==>
                    || (key in m && key != stackedKey)
                    || (key.Expert? && Pair(key.layer, key.proj) == pair && key.expert < j)
        invariant forall key :: key in s ==>
                    s[key] == if key.Expert? && Pair(key.layer, key.proj) == pair && key.expert < j
                              then stacked.rows[key.expert] else m[key]
      {
        if !stacked.Rows? || j >= |stacked.rows| {
          return None;
        }
        s := s[Expert(pair.layer, j, pair.proj) := stacked.rows[j]];
      }
    }
    forall key
      ensures SplitAt(m, s, {pair}, n, key)
    {
    }
    result := Some(s);
  }

  lemma SplitOneMore(m: Dict, s: Dict, next: Dict, done: set<Pair>, n: nat, pair: Pair)
    requires IsSplit(m, s, done, n) && pair !in done && IsSplit(s, next, {pair}, n) && CanSplit(s, pair, n)
    ensures CanSplit(m, pair, n) && IsSplit(m, next, done + {pair}, n)
  {
    assert SplitAt(m, s, done, n, Stacked(pair.layer, pair.proj));
    forall key
      ensures SplitAt(m, next, done + {pair}, n, key)
    {
      assert SplitAt(m, s, done, n, key) && SplitAt(s, next, {pair}, n, key);
      if key.Expert? {
        assert SplitAt(m, s, done, n, Stacked(key.layer, key.proj));
      }
    }
  }

  method SplitNext(ghost m: Dict, s: Dict, ghost done: set<Pair>, pair: Pair, n: nat) returns (result: Option<Dict>)
    requires IsSplit(m, s, done, n) && pair !in done
    ensures result.Some? <==> CanSplit(m, pair, n)
    ensures result.Some? ==> IsSplit(m, result.value, done + {pair}, n)
  {
    result := SplitStack(s, pair, n);
    assert SplitAt(m, s, done, n, Stacked(pair.layer, pair.proj));
    if result.Some? {
      SplitOneMore(m, s, result.value, done, n, pair);
    }
  }

  predicate CanSplitAll(m: Dict, pairs: set<Pair>, n: nat) {
    forall pair :: pair in pairs ==> CanSplit(m, pair, n)
  }

  const PROJS := [Gate, Up, Down]

  /** moe_split */
  method SplitExperts(m: Dict, layers: nat, n: nat) returns (result: Option<Dict>)
    ensures result.Some? <==> CanSplitAll(m, Pairs(0, layers), n)
    ensures result.Some? ==> IsSplit(m, result.value, Pairs(0, layers), n)
  {
    var s := m;
    for i := 0 to layers
      invariant IsSplit(m, s, Pairs(0, i), n) && CanSplitAll(m, Pairs(0, i), n)
    {
      ghost var done := Pairs(0, i);
      for k := 0 to |PROJS|
        invariant IsSplit(m, s, done, n) && CanSplitAll(m, done, n)
        invariant done == Pairs(0, i) + set l | 0 <= l < k :: Pair(i, PROJS[l])
      {
        var next := SplitNext(m, s, done, Pair(i, PROJS[k]), n);
        if next.None? {
          assert Pair(i, PROJS[k]) in Pairs(0, layers);
          return None;
        }
        s, done := next.value, done + {Pair(i, PROJS[k])};
      }
      assert forall pair :: pair in LayerPairs(i) ==> pair in done by {
        assert Pair(i, PROJS[0]) in done && Pair(i, PROJS[1]) in done && Pair(i, PROJS[2]) in done;
      }
      assert done == Pairs(0, i + 1);
    }
    result := Some(s);
  }

  // ----- there and back -----

  ghost predicate NoStacks(d: Dict, layers: nat) {
    forall i: nat, p :: i < layers ==> Stacked(i, p) !in d
  }

  lemma MergedCanBeSplit(d: Dict, m: Dict, start: nat, layers: nat, n: nat)
    requires IsMerged(d, m, Pairs(start, layers), n) && NoStacks(d, layers)
    ensures CanSplitAll(m, Pairs(0, layers), n)
  {
    forall pair | pair in Pairs(0, layers)
      ensures CanSplit(m, pair, n)
    {
      assert MergedAt(d, m, Pairs(start, layers), n, Stacked(pair.layer, pair.proj));
    }
  }

  lemma SplitUndoesMergeAt(d: Dict, m: Dict, s: Dict, start: nat, layers: nat, n: nat, key: Key)
    requires HasAllExperts(d, Pairs(start, layers), n) && IsMerged(d, m, Pairs(start, layers), n)
    requires IsSplit(m, s, Pairs(0, layers), n) && NoStacks(d, layers)
    ensures Same(d, s, key)
  {
    assert MergedAt(d, m, Pairs(start, layers), n, key) && SplitAt(m, s, Pairs(0, layers), n, key);
    if key.Expert? {
      assert MergedAt(d, m, Pairs(start, layers), n, Stacked(key.layer, key.proj));
      assert Pair(key.layer, key.proj) in Pairs(start, layers) ==> HasExperts(d, Pair(key.layer, key.proj), n);
    }
  }

  /** Splitting what was merged gives back the same dictionary, for any number of dense layers before the first one with
      experts, if and only if it had no stacked tensors of its own in any of the layers. */
  lemma SplitUndoesMergeIff(d: Dict, m: Dict, s: Dict, start: nat, layers: nat, n: nat)
    requires HasAllExperts(d, Pairs(start, layers), n) && IsMerged(d, m, Pairs(start, layers), n)
    requires IsSplit(m, s, Pairs(0, layers), n)
    ensures s == d <==> NoStacks(d, layers)
  {
    if NoStacks(d, layers) {
      forall key
        ensures Same(d, s, key)
      {
        SplitUndoesMergeAt(d, m, s, start, layers, n, key);
      }
      assert forall key :: key in s ==> Same(d, s, key);
      assert forall key :: key in d ==> Same(d, s, key);
      assert s == d;
    }
    forall i: nat, p | i < layers
      ensures Stacked(i, p) !in s
    {
      assert SplitAt(m, s, Pairs(0, layers), n, Stacked(i, p));
    }
  }

  // ----- the two programs -----

  /** What the programs read from a model's config; None for an attribute it does not have. */
  datatype Config = Config(numExperts: Option<nat>, nRoutedExperts: Option<nat>, firstKDenseReplace: Option<nat>,
                           layers: nat) {

    /** How many experts moe_merge stacks, if it can find out. */
    function MergedExperts(): Option<nat> {
      if numExperts.Some? then numExperts else nRoutedExperts
    }

    function Start(): nat {
      if firstKDenseReplace.Some? then firstKDenseReplace.value else 0
    }

    /** moe_merge accepts the checkpoint. */
    predicate Mergeable(d: Dict) {
      && MergedExperts().Some? && HasAllExperts(d, Pairs(Start(), layers), MergedExperts().value)
      && (MergedExperts().value > 0 || layers <= Start())
    }
  }

  /** Every expert of these layers is there. */
  predicate ExpertsIn(d: Dict, start: nat, layers: nat, n: nat) {
    forall i: nat, j: nat, p :: start <= i < layers && j < n ==> Expert(i, j, p) in d
  }

  /** The experts of a layer, one row each in their order, in place of the experts themselves. */
  predicate StackIs(d: Dict, m: Dict, i: nat, p: Proj, n: nat) {
    && Stacked(i, p) in m && m[Stacked(i, p)].Rows? && |m[Stacked(i, p)].rows| == n
    && forall j: nat :: j < n ==>
         Expert(i, j, p) in d && Expert(i, j, p) !in m && m[Stacked(i, p)].rows[j] == d[Expert(i, j, p)]
  }

  lemma ExpertsInIff(d: Dict, start: nat, layers: nat, n: nat)
    ensures HasAllExperts(d, Pairs(start, layers), n) <==> ExpertsIn(d, start, layers, n)
  {
    if ExpertsIn(d, start, layers, n) {
      forall pair | pair in Pairs(start, layers)
        ensures HasExperts(d, pair, n)
      {
      }
    } else {
      var i: nat, j: nat, p :| start <= i < layers && j < n && Expert(i, j, p) !in d;
      assert Pair(i, p) in Pairs(start, layers) && !HasExperts(d, Pair(i, p), n);
    }
  }

  lemma StacksAre(d: Dict, m: Dict, start: nat, layers: nat, n: nat)
    requires IsMerged(d, m, Pairs(start, layers), n)
    ensures forall i: nat, p :: start <= i < layers ==> StackIs(d, m, i, p, n)
  {
    forall i: nat, p | start <= i < layers
      ensures StackIs(d, m, i, p, n)
    {
      assert Pair(i, p) in Pairs(start, layers);
      assert MergedAt(d, m, Pairs(start, layers), n, Stacked(i, p));
      forall j: nat | j < n
        ensures Expert(i, j, p) !in m
      {
        assert MergedAt(d, m, Pairs(start, layers), n, Expert(i, j, p));
      }
    }
  }

  /** What a config says: the number of experts is num_experts or else n_routed_experts, and the first layers are dense
      if it says so. */
  lemma MergeableIff(config: Config, d: Dict, n: nat, start: nat)
    requires if config.numExperts.Some? then config.numExperts == Some(n) else config.nRoutedExperts == Some(n)
    requires if config.firstKDenseReplace.Some? then config.firstKDenseReplace == Some(start) else start == 0
    ensures config.Mergeable(d) <==> ExpertsIn(d, start, config.layers, n) && (n > 0 || config.layers <= start)
  {
    ExpertsInIff(d, start, config.layers, n);
  }

  method MergeModel(config: Config, d: Dict) returns (result: Option<Dict>)
    ensures config.numExperts.None? && config.nRoutedExperts.None? ==> result.None?
    ensures forall n, start ::
              && (if config.numExperts.Some? then config.numExperts == Some(n) else config.nRoutedExperts == Some(n))
              && (if config.firstKDenseReplace.Some? then config.firstKDenseReplace == Some(start) else start == 0) ==>
                && (result.Some? <==> ExpertsIn(d, start, config.layers, n) && (n > 0 || config.layers <= start))
                && (result.Some? ==>
                      forall i: nat, p :: start <= i < config.layers ==> StackIs(d, result.value, i, p, n))
    ensures result.Some? <==> config.Mergeable(d)
    ensures result.Some? ==>
              IsMerged(d, result.value, Pairs(config.Start(), config.layers), config.MergedExperts().value)
  {
    var n := if config.numExperts.Some? then config.numExperts else config.nRoutedExperts;
    if n.None? {
      return None;
    }
    var start := if config.firstKDenseReplace.Some? then config.firstKDenseReplace.value else 0;
    result := MergeExperts(d, start, config.layers, n.value);
    MergeableIff(config, d, n.value, start);
    if result.Some? {
      StacksAre(d, result.value, start, config.layers, n.value);
    }
  }

  /** The rows of a stack, as experts in their order, in place of the stack. */
  predicate UnstackIs(m: Dict, s: Dict, i: nat, p: Proj, n: nat) {
    && Stacked(i, p) !in s
    && forall j: nat {:trigger UnstackedAt(m, s, i, p, j)} :: j < n && Stacked(i, p) in m ==> UnstackedAt(m, s, i, p, j)
  }

  predicate UnstackedAt(m: Dict, s: Dict, i: nat, p: Proj, j: nat)
    requires Stacked(i, p) in m
  {
    && m[Stacked(i, p)].Rows? && j < |m[Stacked(i, p)].rows|
    && Expert(i, j, p) in s && s[Expert(i, j, p)] == m[Stacked(i, p)].rows[j]
  }

  lemma StacksAreSplit(m: Dict, s: Dict, layers: nat, n: nat)
    requires IsSplit(m, s, Pairs(0, layers), n)
    ensures forall i: nat, p :: i < layers ==> UnstackIs(m, s, i, p, n)
  {
    forall i: nat, p | i < layers
      ensures UnstackIs(m, s, i, p, n)
    {
      assert Pair(i, p) in Pairs(0, layers);
      assert SplitAt(m, s, Pairs(0, layers), n, Stacked(i, p));
      forall j: nat | j < n && Stacked(i, p) in m
        ensures UnstackedAt(m, s, i, p, j)
      {
        assert SplitAt(m, s, Pairs(0, layers), n, Expert(i, j, p));
      }
    }
  }

  /** moe_split knows one name for the number of experts only. */
  method SplitModel(config: Config, m: Dict) returns (result: Option<Dict>)
    ensures result.Some? <==>
            config.numExperts.Some? && CanSplitAll(m, Pairs(0, config.layers), config.numExperts.value)
    ensures result.Some? ==> IsSplit(m, result.value, Pairs(0, config.layers), config.numExperts.value)
    ensures result.Some? ==> forall i: nat, p :: i < config.layers ==>
                               UnstackIs(m, result.value, i, p, config.numExperts.value)
  {
    if config.numExperts.None? {
      return None;
    }
    result := SplitExperts(m, config.layers, config.numExperts.value);
    if result.Some? {
      StacksAreSplit(m, result.value, config.layers, config.numExperts.value);
    }
  }

  /** The two programs one after the other give back a checkpoint that the first one accepts if and only if its config
      has num_experts, which a merged DeepSeek checkpoint need not have, and it had no stacked tensors of its own. */
  method MergeThenSplit(config: Config, d: Dict) returns (result: Option<Dict>)
    ensures config.Mergeable(d) ==> (result == Some(d) <==> config.numExperts.Some? && NoStacks(d, config.layers))
    ensures !config.Mergeable(d) ==> result.None?
  {
    var m := MergeModel(config, d);
    if m.None? {
      return None;
    }
    result := SplitModel(config, m.value);
    if config.numExperts.Some? {
      var start, layers, n := config.Start(), config.layers, config.numExperts.value;
      if NoStacks(d, layers) {
        MergedCanBeSplit(d, m.value, start, layers, n);
      }
      if result.Some? {
        SplitUndoesMergeIff(d, m.value, result.value, start, layers, n);
      }
    }
  }
}
