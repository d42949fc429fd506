/** get_dynamic_pipeline_shards of megatron_model_merger.py: how many layers each pipeline rank gets. */
module PipelineShards {
  import opened Arithmetic

  datatype Result =
    | Shards(stages: seq<int>)
    | TooFewLayers  // ValueError
    | BadSize       // ValueError
    | NoStrategy    // IndexError: sorted([])[0]

  function Sum(s: seq<int>): int {
    if s == [] then 0 else s[0] + Sum(s[1..])
  }

  function Repeat(n: int, times: nat): (s: seq<int>)
    ensures |s| == times && forall i :: 0 <= i < times ==> s[i] == n
  {
    seq(times, i => n)
  }

  // ----- one candidate -----

  function First(L: int, p: int, m: int): int {
    (L - m * (p - 2)) / 2
  }

  function Last(L: int, p: int, m: int): int {
    L - m * (p - 2) - First(L, p, m)
  }

  /** The middle ranks get m layers each; the first and the last share the rest. */
  function Strategy(L: int, p: int, m: int): seq<int>
    requires p >= 3
  {
    [First(L, p, m)] + Repeat(m, p - 2) + [Last(L, p, m)]
  }

  predicate Fits(L: int, p: int, m: int) {
    0 < First(L, p, m) <= m && 0 < Last(L, p, m) <= m
  }

  function Abs(n: int): nat {
    if n < 0 then -n else n
  }

  lemma FitsIff(L: int, p: int, m: nat)
    requires p >= 3
    ensures Fits(L, p, m) <==> m * (p - 2) + 2 <= L <= m * p
  {
    assert m * p == m * (p - 2) + 2 * m;
  }

  lemma CeilDivLeast(L: int, p: int, m: int)
    requires p >= 1
    ensures L <= m * p <==> CeilDiv(L, p) <= m
  {
    var c, r := CeilDiv(L, p), (L + p - 1) % p;
    assert L + p - 1 == c * p + r;
    if c <= m {
      MulMono(c, m, p);
    } else {
      MulMono(m, c - 1, p);
      assert (c - 1) * p == c * p - p;
    }
  }

  /** A larger middle leaves a strictly more uneven candidate. */
  lemma UnevennessGrows(L: int, p: int, m: int, n: int)
    requires p >= 3 && m < n && Fits(L, p, m) && Fits(L, p, n)
    ensures Abs(First(L, p, m) - m) < Abs(First(L, p, n) - n)
  {
    MulMono(m, n, p - 2);
  }

  // ----- the search -----

  type Candidate = (seq<int>, nat)

  /** sorted(candidates, key=...)[0]: the first of the least. */
  function FirstOfLeast(candidates: seq<Candidate>): Candidate
    requires candidates != []
  {
    if |candidates| == 1 then candidates[0]
    else
      var rest := FirstOfLeast(candidates[1..]);
      if rest.1 < candidates[0].1 then rest else candidates[0]
  }

  lemma {:induction false} HeadIsLeast(candidates: seq<Candidate>, most: nat)
    requires candidates != [] && forall x :: x in candidates ==> most <= x.1
    ensures FirstOfLeast(candidates).1 >= most
    ensures candidates[0].1 == most ==> FirstOfLeast(candidates) == candidates[0]
  {
    if |candidates| > 1 {
      HeadIsLeast(candidates[1..], most);
    }
  }

  function CandidateOf(L: int, p: int, m: int): Candidate
    requires p >= 3
  {
    (Strategy(L, p, m), Abs(First(L, p, m) - m))
  }

  /** The candidates with a middle below n, in order. */
  function Candidates(L: int, p: int, n: nat): seq<Candidate>
    requires p >= 3
  {
    if n == 0 then []
    else Candidates(L, p, n - 1) + if Fits(L, p, n - 1) then [CandidateOf(L, p, n - 1)] else []
  }

  method Search(L: int, p: int) returns (candidates: seq<Candidate>)
    requires p >= 3 && L >= 0
    ensures candidates == Candidates(L, p, L)
  {
    candidates := [];
    var middleSize := p - 2;
    for m := 0 to L
      invariant candidates == Candidates(L, p, m)
    {
      var firstLast := L - m * middleSize;
      var first := firstLast / 2;
      var last := firstLast - firstLast / 2;
      if 0 < first <= m && 0 < last <= m {
        candidates := candidates + [([first] + Repeat(m, middleSize) + [last], Abs(first - m))];
      }
    }
  }

  /** If any middle fits, the least one that could does. */
  lemma LeastFits(L: int, p: int, m: nat)
    requires p >= 3 && L >= p && Fits(L, p, m)
    ensures CeilDiv(L, p) <= m < L && Fits(L, p, CeilDiv(L, p))
  {
    var c := CeilDiv(L, p);
    FitsIff(L, p, m);
    CeilDivLeast(L, p, m);
    CeilDivLeast(L, p, 0);
    CeilDivLeast(L, p, c);
    MulMono(c, m, p - 2);
    MulMono(1, p - 2, m);
    FitsIff(L, p, c);
  }

  lemma {:induction false} LeastComesFirst(L: int, p: int, n: nat)
    requires p >= 3 && L >= p
    ensures var c, all := CeilDiv(L, p), Candidates(L, p, n);
            && (all != [] <==> 0 <= c < n && Fits(L, p, c))
            && (all != [] ==> all[0] == CandidateOf(L, p, c) && forall x :: x in all ==> all[0].1 <= x.1)
  {
    CeilDivLeast(L, p, 0);
    if n > 0 {
      LeastComesFirst(L, p, n - 1);
      if Fits(L, p, n - 1) {
        LeastFits(L, p, n - 1);
        if CeilDiv(L, p) < n - 1 {
          UnevennessGrows(L, p, CeilDiv(L, p), n - 1);
        }
      }
    }
  }

  lemma SearchFinds(L: int, p: int)
    requires p >= 3 && L >= p
    ensures var all := Candidates(L, p, L);
            && (all != [] <==> CeilDiv(L, p) * (p - 2) + 2 <= L)
            && (all != [] ==> FirstOfLeast(all).0 == Strategy(L, p, CeilDiv(L, p)))
  {
    var c := CeilDiv(L, p);
    LeastComesFirst(L, p, L);
    CeilDivLeast(L, p, 0);
    CeilDivLeast(L, p, c);
    FitsIff(L, p, c);
    if Fits(L, p, c) {
      LeastFits(L, p, c);
    }
    if Candidates(L, p, L) != [] {
      HeadIsLeast(Candidates(L, p, L), Candidates(L, p, L)[0].1);
    }
  }

  /** What the search comes down to. */
  function Uniform(L: int, p: int): seq<int>
    requires 1 <= p <= L
  {
    if p == 1 then [L] else if p == 2 then [L / 2, L - L / 2] else Strategy(L, p, CeilDiv(L, p))
  }

  /** All layers on one rank; with more ranks the last stage has at most one layer more than the first and never fewer,
      and the ones between them, if any, ceil(L / p) each. */
  predicate IsUniform(L: int, p: int, stages: seq<int>) {
    && |stages| == p && p >= 1
    && (p == 1 ==> stages[0] == L)
    && (p >= 2 ==> stages[0] <= stages[p - 1] <= stages[0] + 1
                   && stages[0] + stages[p - 1] == L - (L + p - 1) / p * (p - 2))
    && forall i :: 1 <= i < p - 1 ==> stages[i] == (L + p - 1) / p
  }

  lemma UniformIs(L: int, p: int)
    requires 1 <= p <= L
    ensures IsUniform(L, p, Uniform(L, p))
  {
  }

  predicate HasResult(L: int, p: int) {
    1 <= p <= L && (p >= 3 ==> CeilDiv(L, p) * (p - 2) + 2 <= L)
  }

  method GetDynamicPipelineShards(L: int, p: int) returns (result: Result)
    ensures result.TooFewLayers? <==> L < p
    ensures result.BadSize? <==> p <= L && p < 1
    ensures result.NoStrategy? <==> 3 <= p <= L && CeilDiv(L, p) * (p - 2) + 2 > L
    ensures HasResult(L, p) <==> result.Shards?
    ensures result.Shards? ==> result.stages == Uniform(L, p) && IsUniform(L, p, result.stages)
  {
    if 1 <= p <= L {
      UniformIs(L, p);
    }
    if L < p {
      return TooFewLayers;
    }
    if p < 1 {
      return BadSize;
    }
    if p == 1 {
      return Shards([L]);
    }
    if p == 2 {
      return Shards([L / 2, L - L / 2]);
    }
    var candidates := Search(L, p);
    SearchFinds(L, p);
    if candidates == [] {
      return NoStrategy;
    }
    result := Shards(FirstOfLeast(candidates).0);
  }

  // ----- what is good about it -----

  lemma {:induction false} SumAppend(s: seq<int>, t: seq<int>)
    ensures Sum(s + t) == Sum(s) + Sum(t)
  {
    if s == [] {
      assert s + t == t;
    } else {
      assert (s + t)[1..] == s[1..] + t;
      SumAppend(s[1..], t);
    }
  }

  lemma {:induction false} SumRepeat(n: int, times: nat)
    ensures Sum(Repeat(n, times)) == n * times
  {
    if times > 0 {
      assert Repeat(n, times)[1..] == Repeat(n, times - 1);
      SumRepeat(n, times - 1);
    }
  }

  lemma {:induction false} SumAtMost(s: seq<int>, most: int)
    requires forall i :: 0 <= i < |s| ==> s[i] <= most
    ensures Sum(s) <= |s| * most
  {
    if s != [] {
      SumAtMost(s[1..], most);
    }
  }

  /** One stage a rank, no stage empty, all layers given out, and no stage larger than need be. */
  predicate IsSplit(L: int, p: int, stages: seq<int>) {
    |stages| == p && Sum(stages) == L && forall i :: 0 <= i < p ==> stages[i] > 0
  }

  predicate LargestIs(stages: seq<int>, most: int) {
    (forall i :: 0 <= i < |stages| ==> stages[i] <= most) && most in stages
  }

  lemma ShardsAreASplit(L: int, p: int)
    requires HasResult(L, p)
    ensures IsSplit(L, p, Uniform(L, p)) && LargestIs(Uniform(L, p), CeilDiv(L, p))
  {
    if p >= 3 {
      var c := CeilDiv(L, p);
      CeilDivLeast(L, p, c);
      CeilDivLeast(L, p, 0);
      FitsIff(L, p, c);
      SumAppend([First(L, p, c)], Repeat(c, p - 2));
      SumAppend([First(L, p, c)] + Repeat(c, p - 2), [Last(L, p, c)]);
      SumRepeat(c, p - 2);
      assert Strategy(L, p, c)[1] == c;
    } else if p == 2 {
      SumAppend([L / 2], [L - L / 2]);
      assert Uniform(L, p) == [L / 2] + [L - L / 2];
      assert Uniform(L, p)[1] == CeilDiv(L, 2);
    } else {
      assert Uniform(L, p)[0] == CeilDiv(L, 1);
    }
  }

  /** No split of the layers over the ranks has a smaller largest stage. */
  lemma NoSplitIsFlatter(L: int, p: int, stages: seq<int>, most: int)
    requires p >= 1 && IsSplit(L, p, stages) && LargestIs(stages, most)
    ensures CeilDiv(L, p) <= most
  {
    SumAtMost(stages, most);
    CeilDivLeast(L, p, most);
  }

  /** L % p ranks with one layer more than the others. */
  function Balanced(L: int, p: int): seq<int>
    requires 1 <= p <= L
  {
    Repeat(L / p + 1, L % p) + Repeat(L / p, p - L % p)
  }

  lemma CeilDivIs(L: int, p: int)
    requires p >= 1
    ensures CeilDiv(L, p) == if L % p == 0 then L / p else L / p + 1
  {
    var q, r := L / p, L % p;
    assert L == q * p + r;
    assert (q + 1) * p == q * p + p && (q - 1) * p == q * p - p;
    CeilDivLeast(L, p, q);
    CeilDivLeast(L, p, q + 1);
    CeilDivLeast(L, p, q - 1);
  }

  lemma Regroup(q: int, r: int, p: int)
    ensures (q + 1) * r + q * (p - r) == q * p + r
  {
    assert (q + 1) * r == q * r + r;
    assert q * (p - r) == q * p - q * r;
  }

  lemma TwoSizesSum(q: int, r: int, p: int)
    requires 0 <= r <= p
    ensures Sum(Repeat(q + 1, r) + Repeat(q, p - r)) == q * p + r
  {
    SumAppend(Repeat(q + 1, r), Repeat(q, p - r));
    SumRepeat(q + 1, r);
    SumRepeat(q, p - r);
    Regroup(q, r, p);
  }

  lemma BalancedSum(L: int, p: int)
    requires 1 <= p <= L
    ensures Sum(Balanced(L, p)) == L
  {
    var q, r := L / p, L % p;
    TwoSizesSum(q, r, p);
    assert L == q * p + r;
  }

  /** As flat a split exists whenever there is a layer for every rank, so where the search comes back empty-handed
      (5 layers on 4 ranks, say) it is the shape of its candidates that is to blame. */
  lemma AFlatSplitAlwaysExists(L: int, p: int)
    requires 1 <= p <= L
    ensures IsSplit(L, p, Balanced(L, p)) && LargestIs(Balanced(L, p), CeilDiv(L, p))
    ensures !HasResult(5, 4)
  {
    BalancedSum(L, p);
    CeilDivIs(L, p);
    assert Balanced(L, p)[0] == CeilDiv(L, p);
  }
}
