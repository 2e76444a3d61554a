/** Weighted backend selection: pickBackend of internal/proxy/proxy.go, with the random draw
    as a parameter and the int32 arithmetic written out. */
module WeightedPick {
  import opened Base
  import opened ProxyConfig

  /** The first backend, from index i on, whose running int32 sum exceeds the draw. */
  function PickFrom(backends: seq<Backend>, draw: int, i: nat, cumulative: int): (r: Option<nat>)
    requires i <= |backends|
    ensures r.Some? ==> i <= r.value < |backends|
    decreases |backends| - i
  {
    if i == |backends| then None else
    var next := Wrap32(cumulative + backends[i].weight);
    if draw < next then Some(i) else PickFrom(backends, draw, i + 1, next)
  }

  function Pick(backends: seq<Backend>, totalWeight: int, draw: int): (r: Option<nat>)
    ensures r.Some? ==> r.value < |backends|
  {
    if totalWeight <= 0 then None else PickFrom(backends, draw, 0, 0)
  }

  /** pickBackend. */
  method PickBackend(route: Route, draw: int) returns (r: Option<nat>)
    requires route.totalWeight > 0 ==> 0 <= draw < route.totalWeight
    ensures r == Pick(route.backends, route.totalWeight, draw)
  {
    if route.totalWeight <= 0 {
      return None;
    }
    var cumulative := 0;
    var i := 0;
    while i < |route.backends|
      invariant 0 <= i <= |route.backends|
      invariant PickFrom(route.backends, draw, i, cumulative) == PickFrom(route.backends, draw, 0, 0)
    {
      cumulative := Wrap32(cumulative + route.backends[i].weight);
      if draw < cumulative {
        return Some(i);
      }
      i := i + 1;
    }
    return None;
  }

  ghost predicate NonNegative(backends: seq<Backend>) {
    forall j :: 0 <= j < |backends| ==> 0 <= backends[j].weight <= MAX_INT32
  }

  lemma {:induction false} WeightBeforeMonotone(backends: seq<Backend>, i: nat, j: nat)
    requires NonNegative(backends) && i <= j <= |backends|
    ensures 0 <= WeightBefore(backends, i) <= WeightBefore(backends, j)
    decreases j
  {
    if i < j {
      WeightBeforeMonotone(backends, i, j - 1);
    } else if 0 < i {
      WeightBeforeMonotone(backends, i - 1, i - 1);
    }
  }

  /** Without overflow, a draw picks the backend whose interval of the prefix sums holds it. */
  lemma {:induction false} PickFromFinds(backends: seq<Backend>, draw: int, i: nat, j: nat)
    requires NonNegative(backends) && TotalWeight(backends) <= MAX_INT32
    requires i <= j < |backends|
    requires WeightBefore(backends, i) <= draw
    requires WeightBefore(backends, j) <= draw < WeightBefore(backends, j + 1)
    ensures PickFrom(backends, draw, i, WeightBefore(backends, i)) == Some(j)
    decreases j - i
  {
    WeightBeforeMonotone(backends, i + 1, |backends|);
    if i < j {
      WeightBeforeMonotone(backends, i + 1, j);
      PickFromFinds(backends, draw, i + 1, j);
    }
  }

  /** The interval of the prefix sums that holds a draw. */
  lemma {:induction false} IntervalOf(backends: seq<Backend>, draw: int, n: nat) returns (j: nat)
    requires n <= |backends| && 0 <= draw < WeightBefore(backends, n)
    ensures j < n && WeightBefore(backends, j) <= draw < WeightBefore(backends, j + 1)
  {
    if draw < WeightBefore(backends, n - 1) {
      j := IntervalOf(backends, draw, n - 1);
    } else {
      j := n - 1;
    }
  }

  /** Of the draws 0 .. n-1, how many pick backend i. */
  function Draws(backends: seq<Backend>, totalWeight: int, i: nat, n: nat): nat {
    if n == 0 then 0
    else Draws(backends, totalWeight, i, n - 1) + if Pick(backends, totalWeight, n - 1) == Some(i) then 1 else 0
  }

  function Min(a: int, b: int): int { if a < b then a else b }

  lemma {:induction false} DrawsSoFar(backends: seq<Backend>, i: nat, n: nat)
    requires NonNegative(backends) && TotalWeight(backends) <= MAX_INT32
    requires i < |backends| && n <= TotalWeight(backends)
    ensures Draws(backends, TotalWeight(backends), i, n)
            == Min(n, WeightBefore(backends, i + 1)) - Min(n, WeightBefore(backends, i))
  {
    WeightBeforeMonotone(backends, i, i + 1);
    if n > 0 {
      DrawsSoFar(backends, i, n - 1);
      var j := IntervalOf(backends, n - 1, |backends|);
      PickFromFinds(backends, n - 1, 0, j);
      if i < j { WeightBeforeMonotone(backends, i + 1, j); }
      if j < i { WeightBeforeMonotone(backends, j + 1, i); }
    }
  }

  /** Every draw below the total picks a backend of positive weight: the final return of the
      source is unreachable when the total does not overflow. */
  lemma EveryDrawPicks(backends: seq<Backend>, draw: int)
    requires NonNegative(backends) && TotalWeight(backends) <= MAX_INT32
    requires 0 <= draw < TotalWeight(backends)
    ensures var r := Pick(backends, TotalWeight(backends), draw);
            r.Some? && backends[r.value].weight > 0
  {
    var j := IntervalOf(backends, draw, |backends|);
    PickFromFinds(backends, draw, 0, j);
  }

  /** Of the draws 0 .. n-1, how many pick one of the backends below i. */
  function DrawsBelow(backends: seq<Backend>, totalWeight: int, i: nat, n: nat): nat {
    if i == 0 then 0 else DrawsBelow(backends, totalWeight, i - 1, n) + Draws(backends, totalWeight, i - 1, n)
  }

  lemma {:induction false} DrawsBelowStep(backends: seq<Backend>, totalWeight: int, i: nat, n: nat)
    requires n > 0
    ensures DrawsBelow(backends, totalWeight, i, n) == DrawsBelow(backends, totalWeight, i, n - 1)
            + var r := Pick(backends, totalWeight, n - 1); if r.Some? && r.value < i then 1 else 0
  {
    if i > 0 { DrawsBelowStep(backends, totalWeight, i - 1, n); }
  }

  /** Each draw picks at most one backend. */
  lemma {:induction false} DrawsBelowBounded(backends: seq<Backend>, totalWeight: int, i: nat, n: nat)
    ensures DrawsBelow(backends, totalWeight, i, n) <= n
  {
    if n > 0 {
      DrawsBelowBounded(backends, totalWeight, i, n - 1);
      DrawsBelowStep(backends, totalWeight, i, n);
    } else {
      NoDraws(backends, totalWeight, i);
    }
  }

  lemma {:induction false} NoDraws(backends: seq<Backend>, totalWeight: int, i: nat)
    ensures DrawsBelow(backends, totalWeight, i, 0) == 0
  {
    if i > 0 { NoDraws(backends, totalWeight, i - 1); }
  }

  /** Backend i is picked by exactly as many of the possible draws as its weight. */
  ghost predicate Proportional(backends: seq<Backend>) {
    var total := Wrap32(TotalWeight(backends));
    forall i :: 0 <= i < |backends| ==>
                  Draws(backends, total, i, if total > 0 then total else 0) == backends[i].weight
  }

  /** For non-negative weights the pick is exactly proportional if and only if the true sum
      of the weights fits an int32. */
  lemma ProportionalExactlyWhenSumFits(backends: seq<Backend>)
    requires NonNegative(backends)
    ensures Proportional(backends) <==> TotalWeight(backends) <= MAX_INT32
  {
    WeightBeforeMonotone(backends, 0, |backends|);
    var total := Wrap32(TotalWeight(backends));
    var draws := if total > 0 then total else 0;
    if TotalWeight(backends) <= MAX_INT32 {
      forall i | 0 <= i < |backends|
        ensures Draws(backends, total, i, draws) == backends[i].weight
      {
        DrawsSoFar(backends, i, total);
        WeightBeforeMonotone(backends, i + 1, |backends|);
      }
    } else if Proportional(backends) {
      DrawsBelowIsSum(backends, total, |backends|, draws);
      DrawsBelowBounded(backends, total, |backends|, draws);
    }
  }

  lemma {:induction false} DrawsBelowIsSum(backends: seq<Backend>, total: int, i: nat, n: nat)
    requires i <= |backends|
    requires forall k :: 0 <= k < |backends| ==> Draws(backends, total, k, n) == backends[k].weight
    ensures DrawsBelow(backends, total, i, n) == WeightBefore(backends, i)
  {
    if i > 0 { DrawsBelowIsSum(backends, total, i - 1, n); }
  }

  const MAX_WEIGHT := 1_000_000
  const MAX_SAFE_BACKENDS := 2147

  lemma {:induction false} WeightBound(backends: seq<Backend>, n: nat)
    requires n <= |backends|
    requires forall j :: 0 <= j < |backends| ==> backends[j].weight <= MAX_WEIGHT
    ensures WeightBefore(backends, n) <= n * MAX_WEIGHT
  {
    if n > 0 { WeightBound(backends, n - 1); }
  }

  /** Weights the API admits cannot overflow the total for up to 2147 backends. */
  lemma AdmittedWeightsAreProportional(backends: seq<Backend>)
    requires |backends| <= MAX_SAFE_BACKENDS
    requires forall j :: 0 <= j < |backends| ==> 0 <= backends[j].weight <= MAX_WEIGHT
    ensures Wrap32(TotalWeight(backends)) == TotalWeight(backends)
    ensures Proportional(backends)
  {
    WeightBound(backends, |backends|);
    WeightBeforeMonotone(backends, 0, |backends|);
    ProportionalExactlyWhenSumFits(backends);
  }

  lemma {:induction false} HeaviestSum(backends: seq<Backend>, n: nat)
    requires n <= |backends|
    requires forall j :: 0 <= j < |backends| ==> backends[j].weight == MAX_WEIGHT
    ensures WeightBefore(backends, n) == n * MAX_WEIGHT
  {
    if n > 0 { HeaviestSum(backends, n - 1); }
  }

  /** One more backend is enough to break it: the total wraps negative and nothing is picked. */
  lemma OneMoreBackendOverflows(backends: seq<Backend>, draw: int)
    requires |backends| == MAX_SAFE_BACKENDS + 1
    requires forall j :: 0 <= j < |backends| ==> backends[j].weight == MAX_WEIGHT
    ensures Pick(backends, Wrap32(TotalWeight(backends)), draw) == None && !Proportional(backends)
  {
    HeaviestSum(backends, |backends|);
    ProportionalExactlyWhenSumFits(backends);
  }

  /** The proxy's own table: a parsed route is picked from by exactly its configured weights if and
      only if their sum fits an int32. */
  lemma LoadedRouteIsProportional(route: Route, p: Parsers)
    requires NonNegative(route.backends) && RouteParses(route, p)
    ensures var loaded := ParsedRoute(route, p);
            (forall i :: 0 <= i < |route.backends| ==>
                           Draws(loaded.backends, loaded.totalWeight, i, if loaded.totalWeight > 0 then loaded.totalWeight else 0)
                           == route.backends[i].weight)
            <==> TotalWeight(route.backends) <= MAX_INT32
  {
    var loaded := ParsedRoute(route, p);
    SameWeights(loaded.backends, route.backends, |route.backends|);
    ProportionalExactlyWhenSumFits(loaded.backends);
  }

  lemma {:induction false} SameWeights(a: seq<Backend>, b: seq<Backend>, n: nat)
    requires n <= |a| == |b| && forall j :: 0 <= j < |a| ==> a[j].weight == b[j].weight
    ensures WeightBefore(a, n) == WeightBefore(b, n)
  {
    if n > 0 { SameWeights(a, b, n - 1); }
  }
}
