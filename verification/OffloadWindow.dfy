/** The window map of AsyncDoubleBufferGroupOffloadHandler: at the end of which layer the transfer of an
    offloaded group has to be finished. G groups are spread over L layers. */
module OffloadWindow {
  import opened Arithmetic

  /** Entry k of the map in closed form. */
  function Window(L: nat, G: nat, k: nat): int
    requires 0 < G
  {
    (L / G) * (k + 1) - 1 + Min(k + 1, L % G)
  }

  function WindowMap(L: nat, G: nat): map<nat, int>
    requires 0 < G
  {
    map k: nat | 0 <= k < G :: Window(L, G, k)
  }

  /** The constructor's loop, with its running `constant`. */
  method BuildWindowMap(G: nat, L: nat) returns (windows: map<nat, int>)
    requires 0 < G
    ensures windows == WindowMap(L, G)
    ensures forall i: nat :: i in windows <==> i < G
    ensures forall i: nat :: i in windows ==>
              windows[i] == (L / G) * (i + 1) - 1 + if i < L % G then i + 1 else L % G
  {
    windows := map[];
    var constant := 0;
    for i := 0 to G
      invariant forall k: nat :: k in windows <==> k < i
      invariant forall k: nat :: k in windows ==> windows[k] == Window(L, G, k)
      invariant constant == Min(i, L % G)
    {
      windows := windows[i := (L / G) * (i + 1) - 1];
      if i < L % G {
        windows := windows[i := windows[i] + i + 1];
        constant := i + 1;
      } else {
        windows := windows[i := windows[i] + constant];
      }
    }
  }

  lemma WindowStep(L: nat, G: nat, k: nat)
    requires 1 <= G <= L
    ensures Window(L, G, k) < Window(L, G, k + 1)
  {
    DivisionFacts(L, G);
    assert (L / G) * (k + 2) == (L / G) * (k + 1) + L / G;
  }

  lemma Scale(q: nat, n: nat)
    requires q >= 1
    ensures q * n >= n
    ensures q >= 2 ==> q * n >= 2 * n
  {
  }

  lemma DivisionFacts(L: nat, G: nat)
    requires 1 <= G <= L
    ensures L / G >= 1 && 0 <= L % G < G && L == (L / G) * G + L % G
    ensures L > G && L % G == 0 ==> L / G >= 2
    ensures L == G ==> L / G == 1 && L % G == 0
    ensures L == G + 1 && G >= 2 ==> L / G == 1 && L % G == 1
    ensures L == 2 && G == 1 ==> L / G == 2 && L % G == 0
  {
    var q, r := L / G, L % G;
    assert L == q * G + r;
    if q >= 2 {
      assert q * G >= 2 * G;
    }
  }

  lemma {:induction false} WindowsIncrease(L: nat, G: nat, j: nat, k: nat)
    requires 1 <= G <= L && j < k
    ensures Window(L, G, j) < Window(L, G, k)
  {
    WindowStep(L, G, k - 1);
    if j < k - 1 {
      WindowsIncrease(L, G, j, k - 1);
    }
  }

  /** The last group is due after the last layer. */
  lemma LastWindow(L: nat, G: nat)
    requires 1 <= G <= L
    ensures Window(L, G, G - 1) == L - 1
  {
    DivisionFacts(L, G);
  }

  /** No group is due before its own layer, and when there are more layers than groups, not before the next. */
  lemma WindowDelay(L: nat, G: nat, k: nat)
    requires 1 <= G <= L
    ensures Window(L, G, k) >= k
    ensures L > G ==> Window(L, G, k) >= k + 1
    ensures L == G ==> Window(L, G, k) == k
    ensures L == G + 1 && k < G ==> Window(L, G, k) == k + 1
  {
    DivisionFacts(L, G);
    Scale(L / G, k + 1);
    if L / G == 1 {
      assert (L / G) * (k + 1) == k + 1;
    }
    if L == 2 && G == 1 {
      assert (L / G) * (k + 1) == 2 * (k + 1);
    }
  }

  predicate DueBefore(windows: map<nat, int>, j: nat, k: nat) {
    j in windows && k in windows && windows[j] < windows[k]
  }

  /** What the handler relies on. */
  ghost predicate GoodWindows(windows: map<nat, int>, L: nat, G: nat) {
    && 1 <= G <= L
    && (forall k: nat :: k in windows <==> k < G)
    && (forall j: nat, k: nat {:trigger DueBefore(windows, j, k)} :: j < k < G ==> DueBefore(windows, j, k))
    && windows[G - 1] == L - 1
    && (forall k :: 0 <= k < G ==> windows[k] >= k && (L > G ==> windows[k] >= k + 1)
                                   && (L == G ==> windows[k] == k) && (L == G + 1 ==> windows[k] == k + 1))
  }

  lemma WindowMapIsGood(L: nat, G: nat)
    requires 1 <= G <= L
    ensures GoodWindows(WindowMap(L, G), L, G)
  {
    LastWindow(L, G);
    forall k | 0 <= k < G
      ensures Window(L, G, k) >= k && (L > G ==> Window(L, G, k) >= k + 1)
           && (L == G ==> Window(L, G, k) == k) && (L == G + 1 ==> Window(L, G, k) == k + 1)
    {
      WindowDelay(L, G, k);
    }
    forall j: nat, k: nat | j < k < G
      ensures DueBefore(WindowMap(L, G), j, k)
    {
      WindowsIncrease(L, G, j, k);
    }
  }
}
