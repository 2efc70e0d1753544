/**
 The upstream pool of one route: origins whose scheduler weight, health and
 active-request count change in place, and the algorithms that pick among them.

 An origin is named by its position in the pool. Weights and counters are
 unbounded integers and latency penalties are reals; `latencyPower` stands for
 the EWMA latency raised to the route's sensitivity.
 */
module UpstreamPool {
  import opened SmoothWeights

  datatype Algorithm =
    | RoundRobin | WeightedRoundRobin | LeastConnections
    | PriorityFailover | AdaptiveLatency | RandomWeighted

  datatype Upstream = Upstream(
    weight: int, priority: int, healthy: bool, active: int, selections: nat,
    healthFailures: nat, healthRecoveries: nat, latencyPower: real, currentWeight: int)
  {
    predicate Valid() {
      weight > 0 && active >= 0 && latencyPower > 0.0
    }

    /** The weight used for one pick: configured, or scaled down by latency and load but at least 1. */
    function Effective(latencyAdjusted: bool): (w: int)
      requires Valid()
      ensures w > 0
    {
      if latencyAdjusted then
        var scaled := (weight * 1_000_000) as real / (latencyPower * (active + 1) as real);
        (if scaled < 1.0 then 1.0 else scaled).Floor
      else weight
    }

    function Load(): real
      requires Valid()
    {
      (active + 1) as real / weight as real
    }
  }

  /** What latency and load cost an origin. */
  function Penalty(u: Upstream): real {
    u.latencyPower * (u.active + 1) as real
  }

  lemma {:induction false} Scaled(a: real, b: real, p: real)
    requires p > 0.0
    ensures a < b ==> a * p < b * p
    ensures a <= b ==> a * p <= b * p
  {
  }

  lemma {:induction false} RatioTimes(total: real, p: real)
    requires p > 0.0
    ensures (total / p) * p == total
  {
  }

  lemma {:induction false} FloorBrackets(ratio: real, w: int)
    requires w == ratio.Floor
    ensures w as real <= ratio < (w + 1) as real
  {
  }

  lemma {:induction false} BracketScales(ratio: real, total: real, p: real, w: int)
    requires p > 0.0 && ratio * p == total && w as real <= ratio < (w + 1) as real
    ensures w as real * p <= total < (w + 1) as real * p
  {
    Scaled(w as real, ratio, p);
    Scaled(ratio, (w + 1) as real, p);
  }

  lemma {:induction false} SmallRatio(ratio: real, total: real, p: real)
    requires p > 0.0 && ratio * p == total && ratio < 1.0
    ensures total < p
  {
    Scaled(ratio, 1.0, p);
  }

  lemma {:induction false} FloorOfRatio(ratio: real, total: real, p: real, w: int)
    requires p > 0.0 && ratio * p == total && w == (if ratio < 1.0 then 1.0 else ratio).Floor
    ensures (w as real * p <= total < (w + 1) as real * p) || (w == 1 && total < p)
  {
    if ratio < 1.0 {
      SmallRatio(ratio, total, p);
    } else {
      FloorBrackets(ratio, w);
      BracketScales(ratio, total, p, w);
    }
  }

  lemma {:induction false} PenaltyIsPositive(u: Upstream)
    requires u.Valid()
    ensures Penalty(u) > 0.0
  {
  }

  /**
   The adjusted weight is a millionfold weight divided by the penalty, rounded down and
   at least one; without adjustment it is the configured weight.
   */
  lemma {:induction false} EffectiveIsQuotient(u: Upstream)
    requires u.Valid()
    ensures var w, total, p := u.Effective(true), (u.weight * 1_000_000) as real, Penalty(u);
            (w as real * p <= total < (w + 1) as real * p) || (w == 1 && total < p)
    ensures u.Effective(false) == u.weight
  {
    PenaltyIsPositive(u);
    var total, p := (u.weight * 1_000_000) as real, Penalty(u);
    EffectiveIsFloor(u, total, p);
    RatioTimes(total, p);
    FloorOfRatio(total / p, total, p, u.Effective(true));
  }

  lemma {:induction false} EffectiveIsFloor(u: Upstream, total: real, p: real)
    requires u.Valid() && total == (u.weight * 1_000_000) as real && p == Penalty(u) > 0.0
    ensures u.Effective(true) == (if total / p < 1.0 then 1.0 else total / p).Floor
  {
  }

  lemma {:induction false} QuotientShrinks(total: real, p: real, q: real, v: int, w: int)
    requires 0.0 < p <= q && total > 0.0 && v >= 1 && w >= 1
    requires (v as real * p <= total < (v + 1) as real * p) || (v == 1 && total < p)
    requires (w as real * q <= total < (w + 1) as real * q) || (w == 1 && total < q)
    ensures v >= w
  {
    assert w as real * (q - p) >= 0.0;
    NonNegative((if w > v then w - v - 1 else 0) as real, p);
  }

  lemma {:induction false} NonNegative(x: real, y: real)
    requires x >= 0.0 && y >= 0.0
    ensures x * y >= 0.0
  {
  }

  /** Of two origins of equal weight, the one with the smaller penalty never weighs less. */
  lemma {:induction false} FasterWeighsMore(a: Upstream, b: Upstream)
    requires a.Valid() && b.Valid() && a.weight == b.weight && Penalty(a) <= Penalty(b)
    ensures a.Effective(true) >= b.Effective(true)
  {
    EffectiveIsQuotient(a);
    EffectiveIsQuotient(b);
    PenaltyIsPositive(a);
    QuotientShrinks((a.weight * 1_000_000) as real, Penalty(a), Penalty(b), a.Effective(true), b.Effective(true));
  }

  /** Less load means fewer requests, counting the new one, for the weight. */
  lemma {:induction false} LoadOrder(a: Upstream, b: Upstream)
    requires a.Valid() && b.Valid()
    ensures a.Load() < b.Load() <==> (a.active + 1) * b.weight < (b.active + 1) * a.weight
    ensures a.Load() == b.Load() <==> (a.active + 1) * b.weight == (b.active + 1) * a.weight
  {
    RatioOrder(a.active + 1, a.weight, b.active + 1, b.weight);
  }

  lemma {:induction false} RatioOrder(x: int, v: int, y: int, w: int)
    requires v > 0 && w > 0
    ensures x as real / v as real < y as real / w as real <==> x * w < y * v
    ensures x as real / v as real == y as real / w as real <==> x * w == y * v
  {
    var a, b := x as real / v as real, y as real / w as real;
    assert a * v as real == x as real && b * w as real == y as real;
    assert (b - a) * (v as real * w as real) == (y * v - x * w) as real;
    assert v as real * w as real > 0.0;
    if b > a {
      assert (b - a) * (v as real * w as real) > 0.0;
    } else if b < a {
      assert (a - b) * (v as real * w as real) > 0.0;
    }
  }

  type Nodes = seq<Upstream>

  predicate AllValid(nodes: Nodes) {
    forall i :: 0 <= i < |nodes| ==> nodes[i].Valid()
  }

  /** Candidate lists name distinct origins of the pool, in pool order. */
  predicate Ascending(n: nat, c: seq<nat>) {
    && (forall i :: 0 <= i < |c| ==> c[i] < n)
    && forall i, j :: 0 <= i < j < |c| ==> c[i] < c[j]
  }

  predicate Keep(nodes: Nodes, i: nat, exclude: set<nat>, healthyOnly: bool)
    requires i < |nodes|
  {
    i !in exclude && (healthyOnly ==> nodes[i].healthy)
  }

  /** The origins below position `n` that may be picked. */
  function Eligible(nodes: Nodes, exclude: set<nat>, healthyOnly: bool, n: nat): seq<nat>
    requires n <= |nodes|
  {
    if n == 0 then []
    else Eligible(nodes, exclude, healthyOnly, n - 1) + (if Keep(nodes, n - 1, exclude, healthyOnly) then [n - 1] else [])
  }

  lemma {:induction false} EligibleSpec(nodes: Nodes, exclude: set<nat>, healthyOnly: bool, n: nat)
    requires n <= |nodes|
    ensures Ascending(|nodes|, Eligible(nodes, exclude, healthyOnly, n))
    ensures forall i :: i in Eligible(nodes, exclude, healthyOnly, n) ==> i < n && Keep(nodes, i, exclude, healthyOnly)
    ensures forall i: nat :: i < n && Keep(nodes, i, exclude, healthyOnly) ==> i in Eligible(nodes, exclude, healthyOnly, n)
  {
    if n > 0 {
      EligibleSpec(nodes, exclude, healthyOnly, n - 1);
      var front := Eligible(nodes, exclude, healthyOnly, n - 1);
      assert forall i :: 0 <= i < |front| ==> front[i] in front;
    }
  }

  /** The list a pick chooses from: untried healthy, then untried, then healthy, then everything. */
  function Candidates(nodes: Nodes, exclude: set<nat>): seq<nat> {
    var n := |nodes|;
    if Eligible(nodes, exclude, true, n) != [] then Eligible(nodes, exclude, true, n)
    else if Eligible(nodes, exclude, false, n) != [] then Eligible(nodes, exclude, false, n)
    else if Eligible(nodes, {}, true, n) != [] then Eligible(nodes, {}, true, n)
    else Eligible(nodes, {}, false, n)
  }

  lemma {:induction false} CandidatesAscend(nodes: Nodes, exclude: set<nat>)
    ensures Ascending(|nodes|, Candidates(nodes, exclude))
    ensures nodes != [] <==> Candidates(nodes, exclude) != []
  {
    EligibleSpec(nodes, exclude, true, |nodes|);
    EligibleSpec(nodes, exclude, false, |nodes|);
    EligibleSpec(nodes, {}, true, |nodes|);
    EligibleSpec(nodes, {}, false, |nodes|);
    if nodes != [] {
      assert Keep(nodes, 0, {}, false);
    }
  }

  /** A tried origin is offered only when every origin was tried. */
  lemma {:induction false} CandidatesPreferUntried(nodes: Nodes, exclude: set<nat>, c: nat, i: nat)
    requires c in Candidates(nodes, exclude) && i < |nodes|
    ensures c < |nodes|
    ensures c in exclude ==> i in exclude
  {
    EligibleSpec(nodes, exclude, true, |nodes|);
    EligibleSpec(nodes, exclude, false, |nodes|);
    EligibleSpec(nodes, {}, true, |nodes|);
    EligibleSpec(nodes, {}, false, |nodes|);
    assert i !in exclude ==> Keep(nodes, i, exclude, false);
  }

  /** An unhealthy origin is offered only when every healthy one was tried and this one was not, or all are down. */
  lemma {:induction false} CandidatesPreferHealthy(nodes: Nodes, exclude: set<nat>, c: nat, i: nat)
    requires c in Candidates(nodes, exclude) && i < |nodes|
    ensures c < |nodes|
    ensures nodes[i].healthy && !nodes[c].healthy ==> i in exclude && c !in exclude
  {
    EligibleSpec(nodes, exclude, true, |nodes|);
    EligibleSpec(nodes, exclude, false, |nodes|);
    EligibleSpec(nodes, {}, true, |nodes|);
    EligibleSpec(nodes, {}, false, |nodes|);
    assert nodes[i].healthy ==> Keep(nodes, i, {}, true);
    assert nodes[i].healthy && i !in exclude ==> Keep(nodes, i, exclude, true);
  }

  /** Untried before tried, and among equally tried ones healthy before unhealthy. */
  predicate Ahead(nodes: Nodes, exclude: set<nat>, i: nat, j: nat)
    requires i < |nodes| && j < |nodes|
  {
    (i !in exclude && j in exclude) || ((i in exclude <==> j in exclude) && nodes[i].healthy && !nodes[j].healthy)
  }

  lemma {:induction false} EligibleIff(nodes: Nodes, exclude: set<nat>, healthyOnly: bool)
    ensures var e := Eligible(nodes, exclude, healthyOnly, |nodes|);
            && (forall i: nat :: i in e <==> i < |nodes| && Keep(nodes, i, exclude, healthyOnly))
            && (e == [] <==> forall i: nat :: i < |nodes| ==> !Keep(nodes, i, exclude, healthyOnly))
  {
    EligibleSpec(nodes, exclude, healthyOnly, |nodes|);
    var e := Eligible(nodes, exclude, healthyOnly, |nodes|);
    if e != [] {
      assert e[0] in e;
    }
  }

  /** The candidates are exactly the origins that no other is ahead of. */
  lemma {:induction false} CandidatesIff(nodes: Nodes, exclude: set<nat>, c: nat)
    ensures c in Candidates(nodes, exclude) <==> c < |nodes| && forall i: nat :: i < |nodes| ==> !Ahead(nodes, exclude, i, c)
  {
    if c in Candidates(nodes, exclude) {
      CandidatesAscend(nodes, exclude);
      forall i: nat | i < |nodes| ensures c < |nodes| && !Ahead(nodes, exclude, i, c) {
        CandidatesPreferUntried(nodes, exclude, c, i);
        CandidatesPreferHealthy(nodes, exclude, c, i);
      }
    } else if c < |nodes| {
      var i := SomeoneAhead(nodes, exclude, c);
    }
  }

  lemma {:induction false} SomeoneAhead(nodes: Nodes, exclude: set<nat>, c: nat) returns (i: nat)
    requires c < |nodes| && c !in Candidates(nodes, exclude)
    ensures i < |nodes| && Ahead(nodes, exclude, i, c)
  {
    EligibleIff(nodes, exclude, true);
    EligibleIff(nodes, exclude, false);
    EligibleIff(nodes, {}, true);
    EligibleIff(nodes, {}, false);
    var all := Candidates(nodes, exclude);
    assert Keep(nodes, c, {}, false);
    assert all[0] in all;
    i := all[0];
  }

  function CurrentWeights(nodes: Nodes): (s: seq<int>)
    ensures |s| == |nodes|
  {
    seq(|nodes|, i requires 0 <= i < |nodes| => nodes[i].currentWeight)
  }

  function At(nodes: Nodes, c: seq<nat>): (s: Nodes)
    requires Ascending(|nodes|, c)
    ensures |s| == |c| && forall i :: 0 <= i < |c| ==> s[i] == nodes[c[i]]
  {
    seq(|c|, i requires 0 <= i < |c| => nodes[c[i]])
  }

  /** The current weights of the candidates `c`, in their order. */
  function WeightsOf(nodes: Nodes, c: seq<nat>): (s: seq<int>)
    requires Ascending(|nodes|, c)
    ensures |s| == |c|
  {
    seq(|c|, i requires 0 <= i < |c| => nodes[c[i]].currentWeight)
  }

  function EffectiveWeights(nodes: Nodes, latencyAdjusted: bool): (s: seq<int>)
    requires AllValid(nodes)
    ensures |s| == |nodes| && forall i :: 0 <= i < |s| ==> s[i] == nodes[i].Effective(latencyAdjusted) > 0
  {
    seq(|nodes|, i requires 0 <= i < |nodes| => nodes[i].Effective(latencyAdjusted))
  }

  /** Weight of the candidates before position `i`. */
  function PrefixWeight(nodes: Nodes, i: nat): int
    requires i <= |nodes|
  {
    if i == 0 then 0 else PrefixWeight(nodes, i - 1) + nodes[i - 1].weight
  }

  /** `after` differs from `before` in current weights at most, and their total is the same. */
  ghost predicate OnlyWeightsMoved(before: Nodes, after: Nodes) {
    && |after| == |before|
    && (forall i :: 0 <= i < |before| ==> after[i] == before[i].(currentWeight := after[i].currentWeight))
    && Sum(CurrentWeights(after)) == Sum(CurrentWeights(before))
  }

  function Credit(p: Nodes, k: nat, amount: int): Nodes
    requires k < |p|
  {
    p[k := p[k].(currentWeight := p[k].currentWeight + amount)]
  }

  lemma {:induction false} CreditOne(p: Nodes, k: nat, amount: int)
    requires k < |p|
    ensures forall i :: 0 <= i < |p| ==>
              Credit(p, k, amount)[i] == p[i].(currentWeight := p[i].currentWeight + (if i == k then amount else 0))
    ensures Sum(CurrentWeights(Credit(p, k, amount))) == Sum(CurrentWeights(p)) + amount
  {
    var w := CurrentWeights(p);
    assert CurrentWeights(Credit(p, k, amount)) == w[k := w[k] + amount];
    SumUpdate(w, k, w[k] + amount);
  }

  /** The pool after the first `i` candidates were credited with their weights. */
  function Credited(nodes: Nodes, c: seq<nat>, w: seq<int>, i: nat): (r: Nodes)
    requires Ascending(|nodes|, c) && |w| == |c| && i <= |c|
    ensures |r| == |nodes|
  {
    if i == 0 then nodes
    else Credit(Credited(nodes, c, w, i - 1), c[i - 1], w[i - 1])
  }

  lemma {:induction false} CreditedElsewhere(nodes: Nodes, c: seq<nat>, w: seq<int>, i: nat)
    requires Ascending(|nodes|, c) && |w| == |c| && i <= |c|
    ensures var r := Credited(nodes, c, w, i);
            && (forall k :: 0 <= k < |nodes| ==> r[k] == nodes[k].(currentWeight := r[k].currentWeight))
            && (forall k :: 0 <= k < |nodes| && k !in c[..i] ==> r[k] == nodes[k])
  {
    if i > 0 {
      CreditedElsewhere(nodes, c, w, i - 1);
      assert c[..i] == c[..i - 1] + [c[i - 1]];
    }
  }

  lemma {:induction false} CreditedAt(nodes: Nodes, c: seq<nat>, w: seq<int>, i: nat)
    requires Ascending(|nodes|, c) && |w| == |c| && i <= |c|
    ensures var r := Credited(nodes, c, w, i);
            forall j :: 0 <= j < |c| ==>
              r[c[j]] == if j < i then nodes[c[j]].(currentWeight := nodes[c[j]].currentWeight + w[j]) else nodes[c[j]]
  {
    if i > 0 {
      CreditedAt(nodes, c, w, i - 1);
    }
  }

  lemma {:induction false} CreditedSum(nodes: Nodes, c: seq<nat>, w: seq<int>, i: nat)
    requires Ascending(|nodes|, c) && |w| == |c| && i <= |c|
    ensures Sum(CurrentWeights(Credited(nodes, c, w, i))) == Sum(CurrentWeights(nodes)) + Sum(w[..i])
  {
    if i > 0 {
      CreditedSum(nodes, c, w, i - 1);
      SumPrefix(w, i - 1);
      CreditOne(Credited(nodes, c, w, i - 1), c[i - 1], w[i - 1]);
    }
  }

  /** Once credited, a candidate has its bumped weight. */
  lemma {:induction false} CreditedIsBump(nodes: Nodes, c: seq<nat>, w: seq<int>, i: nat, j: nat)
    requires Ascending(|nodes|, c) && |w| == |c| && j < i <= |c|
    ensures Credited(nodes, c, w, i)[c[j]].currentWeight == nodes[c[j]].currentWeight + w[j]
  {
    CreditedAt(nodes, c, w, i);
  }

  /** Crediting candidate `i` and comparing it with the best so far keeps the running sum and maximum. */
  lemma {:induction false} CreditedStep(nodes: Nodes, c: seq<nat>, w: seq<int>, b: seq<int>, i: nat, at: nat)
    requires Ascending(|nodes|, c) && |w| == |c| && i < |c|
    requires b == Bump(WeightsOf(nodes, c), w)
    requires i == 0 ==> at == 0
    requires i > 0 ==> at < i && at == ArgMax(b[..i])
    ensures Credited(nodes, c, w, i + 1)[c[i]].currentWeight == b[i]
    ensures i > 0 ==> Credited(nodes, c, w, i + 1)[c[at]].currentWeight == b[at]
    ensures Sum(w[..i + 1]) == Sum(w[..i]) + w[i]
    ensures ArgMax(b[..i + 1]) == if i == 0 || b[i] > b[at] then i else at
  {
    CreditedIsBump(nodes, c, w, i + 1, i);
    CreditedIsBump(nodes, c, w, i + 1, at);
    assert b[i] == nodes[c[i]].currentWeight + w[i] && b[at] == nodes[c[at]].currentWeight + w[at];
    SumPrefix(w, i);
    RunningMax(b, i, at);
  }

  lemma {:induction false} RunningMax(b: seq<int>, i: nat, at: nat)
    requires i < |b| && (i > 0 ==> at < i && at == ArgMax(b[..i])) && (i == 0 ==> at == 0)
    ensures ArgMax(b[..i + 1]) == if i == 0 || b[i] > b[at] then i else at
  {
    if i > 0 {
      ArgMaxPrefix(b, i);
    }
  }

  /** The loop after `i` candidates: who was credited, the total, and the place of the first largest weight. */
  ghost predicate Crediting(first: Nodes, c: seq<nat>, w: seq<int>, now: Nodes, total: int, at: nat, i: nat)
    requires Ascending(|first|, c) && |w| == |c| && i <= |c|
  {
    && now == Credited(first, c, w, i) && total == Sum(w[..i])
    && (i == 0 ==> at == 0) && (i > 0 ==> at < i && at == ArgMax(Bump(WeightsOf(first, c), w)[..i]))
  }

  lemma {:induction false} CreditingStep(first: Nodes, c: seq<nat>, w: seq<int>, now: Nodes, total: int, at: nat, i: nat)
    requires Ascending(|first|, c) && |w| == |c| && i < |c| && |now| == |first| && Crediting(first, c, w, now, total, at, i)
    ensures at < |c|
    ensures var next := Credit(now, c[i], w[i]);
            var best := if i == 0 || next[c[i]].currentWeight > next[c[at]].currentWeight then i else at;
            Crediting(first, c, w, next, total + w[i], best, i + 1)
  {
    CreditedStep(first, c, w, Bump(WeightsOf(first, c), w), i, at);
  }

  lemma {:induction false} CreditingEnd(first: Nodes, c: seq<nat>, w: seq<int>, now: Nodes, total: int, at: nat)
    requires Ascending(|first|, c) && |w| == |c| > 0 && Crediting(first, c, w, now, total, at, |c|)
    ensures now == Credited(first, c, w, |c|) && total == Sum(w) && at == Choice(WeightsOf(first, c), w)
  {
    var b := Bump(WeightsOf(first, c), w);
    assert w[..|c|] == w && b[..|c|] == b;
  }

  /** The pool after one smooth weighted pick over the candidates `c` with weights `w`. */
  function Picked(nodes: Nodes, c: seq<nat>, w: seq<int>): Nodes
    requires Ascending(|nodes|, c) && |w| == |c| > 0
  {
    Credit(Credited(nodes, c, w, |c|), c[Choice(WeightsOf(nodes, c), w)], -Sum(w))
  }

  /** Whatever the candidate subset and the weights, a pick only moves weight inside the pool. */
  lemma {:induction false} PickedBalances(nodes: Nodes, c: seq<nat>, w: seq<int>)
    requires Ascending(|nodes|, c) && |w| == |c| > 0
    ensures OnlyWeightsMoved(nodes, Picked(nodes, c, w))
  {
    var k := c[Choice(WeightsOf(nodes, c), w)];
    var r := Credited(nodes, c, w, |c|);
    assert w[..|c|] == w;
    CreditedElsewhere(nodes, c, w, |c|);
    CreditedSum(nodes, c, w, |c|);
    CreditOne(r, k, -Sum(w));
  }

  /** One scheduling decision: who was eligible and with which weights. */
  datatype Decision = Decision(candidates: seq<nat>, weights: seq<int>)

  predicate Possible(n: nat, d: Decision) {
    |d.weights| == |d.candidates| > 0 && Ascending(n, d.candidates)
  }

  /** The pool after the first `k` decisions of a run. */
  function AfterRun(nodes: Nodes, run: seq<Decision>, k: nat): (r: Nodes)
    requires k <= |run| && forall i :: 0 <= i < |run| ==> Possible(|nodes|, run[i])
    ensures |r| == |nodes|
  {
    if k == 0 then nodes
    else Picked(AfterRun(nodes, run, k - 1), run[k - 1].candidates, run[k - 1].weights)
  }

  /** Over any run of changing candidate sets and weights, the pool's current weights keep their sum. */
  lemma {:induction false} RunBalances(nodes: Nodes, run: seq<Decision>, k: nat)
    requires k <= |run| && forall i :: 0 <= i < |run| ==> Possible(|nodes|, run[i])
    ensures OnlyWeightsMoved(nodes, AfterRun(nodes, run, k))
  {
    if k > 0 {
      RunBalances(nodes, run, k - 1);
      PickedBalances(AfterRun(nodes, run, k - 1), run[k - 1].candidates, run[k - 1].weights);
    }
  }

  /** What a smooth weighted pick does to the candidates it chose from. */
  ghost predicate PickStep(before: Nodes, after: Nodes, d: Decision)
    requires Possible(|before|, d)
  {
    |after| == |before| && WeightsOf(after, d.candidates) == Next(WeightsOf(before, d.candidates), d.weights)
  }

  /** Restricted to the candidates, a pick of the pool is a step of the weight arithmetic. */
  lemma {:induction false} PickedIsNext(nodes: Nodes, c: seq<nat>, w: seq<int>)
    requires Ascending(|nodes|, c) && |w| == |c| > 0
    ensures PickStep(nodes, Picked(nodes, c, w), Decision(c, w))
  {
    CreditedAt(nodes, c, w, |c|);
    var cw := WeightsOf(nodes, c);
    var at, b, after := Choice(cw, w), Bump(cw, w), Picked(nodes, c, w);
    assert forall j :: 0 <= j < |c| ==> (c[j] == c[at] <==> j == at);
    forall j | 0 <= j < |c|
      ensures after[c[j]].currentWeight == Next(cw, w)[j]
    {
    }
  }

  /** The candidate a smooth weighted pick selects. */
  function Selection(nodes: Nodes, d: Decision): nat
    requires Possible(|nodes|, d)
  {
    d.candidates[Choice(WeightsOf(nodes, d.candidates), d.weights)]
  }

  /** The pool after `k` smooth weighted picks from the same candidates. */
  function Repeated(nodes: Nodes, d: Decision, k: nat): (r: Nodes)
    requires Possible(|nodes|, d)
    ensures |r| == |nodes|
  {
    if k == 0 then nodes else Picked(Repeated(nodes, d, k - 1), d.candidates, d.weights)
  }

  /** How often the first `k` picks selected node `c`. */
  function Selected(nodes: Nodes, d: Decision, c: nat, k: nat): nat
    requires Possible(|nodes|, d)
  {
    if k == 0 then 0 else Selected(nodes, d, c, k - 1) + (if Selection(Repeated(nodes, d, k - 1), d) == c then 1 else 0)
  }

  /** While the candidates stay the same, the pool follows the weight arithmetic pick by pick. */
  lemma {:induction false} SameFollowsWeights(nodes: Nodes, d: Decision, k: nat)
    requires Possible(|nodes|, d)
    ensures WeightsOf(Repeated(nodes, d, k), d.candidates) == After(WeightsOf(nodes, d.candidates), d.weights, k)
  {
    if k > 0 {
      SameFollowsWeights(nodes, d, k - 1);
      PickedIsNext(Repeated(nodes, d, k - 1), d.candidates, d.weights);
    }
  }

  /** Each candidate is named once, so selecting it is choosing its place. */
  lemma {:induction false} SelectionIsPlace(nodes: Nodes, d: Decision, i: nat)
    requires Possible(|nodes|, d) && i < |d.candidates|
    ensures Selection(nodes, d) == d.candidates[i] <==> Choice(WeightsOf(nodes, d.candidates), d.weights) == i
  {
    var at := Choice(WeightsOf(nodes, d.candidates), d.weights);
    assert d.candidates[at] == d.candidates[i] <==> at == i;
  }

  lemma {:induction false} SelectedIsCount(nodes: Nodes, d: Decision, i: nat, k: nat)
    requires Possible(|nodes|, d) && i < |d.candidates|
    ensures Selected(nodes, d, d.candidates[i], k) == Count(Picks(WeightsOf(nodes, d.candidates), d.weights, k), i)
  {
    if k > 0 {
      SelectedIsCount(nodes, d, i, k - 1);
      SameFollowsWeights(nodes, d, k - 1);
      SelectionIsPlace(Repeated(nodes, d, k - 1), d, i);
      CountStep(WeightsOf(nodes, d.candidates), d.weights, k, i);
    }
  }

  /**
   Fairness of the pool itself: while the candidates stay the same, from zero current
   weights every window of total-weight picks selects each candidate exactly its weight
   times.
   */
  lemma {:induction false} PoolIsFair(nodes: Nodes, d: Decision, k: nat, later: nat, i: nat)
    requires Possible(|nodes|, d) && Positive(d.weights) && i < |d.candidates|
    requires WeightsOf(nodes, d.candidates) == Zeros(|d.weights|) && later == k + Sum(d.weights)
    ensures Selected(nodes, d, d.candidates[i], later) == Selected(nodes, d, d.candidates[i], k) + d.weights[i]
  {
    var cw, w := WeightsOf(nodes, d.candidates), d.weights;
    FairInEveryWindow(cw, w, k, later, i);
    SelectedIsCount(nodes, d, i, k);
    SelectedIsCount(nodes, d, i, later);
  }

  /** The first eligible origin is the first that may be kept. */
  lemma {:induction false} FirstEligible(nodes: Nodes, exclude: set<nat>, healthyOnly: bool)
    ensures var e := Eligible(nodes, exclude, healthyOnly, |nodes|);
            if e == [] then forall i :: 0 <= i < |nodes| ==> !Keep(nodes, i, exclude, healthyOnly)
            else
              && e[0] < |nodes| && Keep(nodes, e[0], exclude, healthyOnly)
              && forall i :: 0 <= i < e[0] ==> !Keep(nodes, i, exclude, healthyOnly)
  {
    EligibleSpec(nodes, exclude, healthyOnly, |nodes|);
    var e := Eligible(nodes, exclude, healthyOnly, |nodes|);
    if e != [] {
      assert e[0] in e;
      forall i | 0 <= i < e[0] ensures !Keep(nodes, i, exclude, healthyOnly) {
        assert forall k :: 0 <= k < |e| ==> e[0] <= e[k];
      }
    }
  }

  /** The first healthy origin not excluded, else the first not excluded, else -1. */
  ghost predicate IsProbeChoice(nodes: Nodes, exclude: set<nat>, r: int) {
    if r == -1 then forall i :: 0 <= i < |nodes| ==> i in exclude
    else
      && 0 <= r < |nodes| && r !in exclude
      && (!nodes[r].healthy ==> forall i :: 0 <= i < |nodes| && nodes[i].healthy ==> i in exclude)
      && forall i :: 0 <= i < r ==> i in exclude || (nodes[r].healthy && !nodes[i].healthy)
  }

  lemma {:induction false} ProbeSpec(nodes: Nodes, exclude: set<nat>)
    ensures var healthy, all := Eligible(nodes, exclude, true, |nodes|), Eligible(nodes, exclude, false, |nodes|);
            IsProbeChoice(nodes, exclude, if healthy != [] then healthy[0] else if all != [] then all[0] else -1)
  {
    FirstEligible(nodes, exclude, true);
    FirstEligible(nodes, exclude, false);
    var healthy, all := Eligible(nodes, exclude, true, |nodes|), Eligible(nodes, exclude, false, |nodes|);
    var r: int := if healthy != [] then healthy[0] else if all != [] then all[0] else -1;
    if r == -1 {
      forall i | 0 <= i < |nodes| ensures i in exclude {
        assert !Keep(nodes, i, exclude, false);
      }
    } else {
      forall i | 0 <= i < |nodes| ensures (nodes[i].healthy && !nodes[r].healthy ==> i in exclude)
                                       && (i < r ==> i in exclude || (nodes[r].healthy && !nodes[i].healthy)) {
        assert healthy == [] ==> !Keep(nodes, i, exclude, true);
        assert healthy != [] && i < r ==> !Keep(nodes, i, exclude, true);
        assert healthy == [] && i < r ==> !Keep(nodes, i, exclude, false);
      }
    }
  }

  // ----- what each algorithm chooses ----------------------------------------

  /** Less loaded for its weight, or equally loaded with a smaller priority number. */
  predicate Preferred(a: Upstream, b: Upstream)
    requires a.Valid() && b.Valid()
  {
    a.Load() < b.Load() || (a.Load() == b.Load() && a.priority < b.priority)
  }

  /** Place `at` holds the first of the candidates that none is preferred to. */
  ghost predicate LeastLoaded(nodes: Nodes, c: seq<nat>, at: int)
    requires AllValid(nodes) && Ascending(|nodes|, c)
  {
    && 0 <= at < |c|
    && (forall j :: 0 <= j < |c| ==> !Preferred(nodes[c[j]], nodes[c[at]]))
    && forall j :: 0 <= j < at ==> Preferred(nodes[c[at]], nodes[c[j]])
  }

  function MinPriority(nodes: Nodes, c: seq<nat>, n: nat): int
    requires Ascending(|nodes|, c) && 0 < n <= |c|
  {
    var p := nodes[c[n - 1]].priority;
    if n == 1 then p else var m := MinPriority(nodes, c, n - 1); if p < m then p else m
  }

  /** The candidates of one priority among the first `n`, in candidate order. */
  function AtPriority(nodes: Nodes, c: seq<nat>, p: int, n: nat): seq<nat>
    requires Ascending(|nodes|, c) && n <= |c|
  {
    if n == 0 then []
    else AtPriority(nodes, c, p, n - 1) + (if nodes[c[n - 1]].priority == p then [c[n - 1]] else [])
  }

  /** The candidates of the best priority. */
  function Group(nodes: Nodes, c: seq<nat>): seq<nat>
    requires Ascending(|nodes|, c) && c != []
  {
    AtPriority(nodes, c, MinPriority(nodes, c, |c|), |c|)
  }

  lemma {:induction false} MinPriorityIsLeast(nodes: Nodes, c: seq<nat>, n: nat) returns (at: nat)
    requires Ascending(|nodes|, c) && 0 < n <= |c|
    ensures at < n && nodes[c[at]].priority == MinPriority(nodes, c, n)
    ensures forall j :: 0 <= j < n ==> MinPriority(nodes, c, n) <= nodes[c[j]].priority
  {
    at := n - 1;
    if n > 1 {
      var earlier := MinPriorityIsLeast(nodes, c, n - 1);
      if nodes[c[earlier]].priority <= nodes[c[at]].priority {
        at := earlier;
      }
    }
  }

  lemma {:induction false} AtPrioritySpec(nodes: Nodes, c: seq<nat>, p: int, n: nat)
    requires Ascending(|nodes|, c) && n <= |c|
    ensures Ascending(|nodes|, AtPriority(nodes, c, p, n))
    ensures forall g :: g in AtPriority(nodes, c, p, n) <==> g in c[..n] && nodes[g].priority == p
  {
    if n > 0 {
      AtPrioritySpec(nodes, c, p, n - 1);
      assert c[..n] == c[..n - 1] + [c[n - 1]];
      var front := AtPriority(nodes, c, p, n - 1);
      forall k | 0 <= k < |front| ensures front[k] < c[n - 1] {
        assert front[k] in c[..n - 1];
      }
    }
  }

  /** The group is exactly the candidates no other candidate has priority over. */
  lemma {:induction false} GroupSpec(nodes: Nodes, c: seq<nat>)
    requires Ascending(|nodes|, c) && c != []
    ensures Group(nodes, c) != [] && Ascending(|nodes|, Group(nodes, c))
    ensures forall g :: g in Group(nodes, c) <==> g in c && forall x :: x in c ==> nodes[g].priority <= nodes[x].priority
  {
    var at := MinPriorityIsLeast(nodes, c, |c|);
    AtPrioritySpec(nodes, c, MinPriority(nodes, c, |c|), |c|);
    assert c[..|c|] == c && c[at] in Group(nodes, c);
  }

  function Weighted(nodes: Nodes, c: seq<nat>, latencyAdjusted: bool): Decision
    requires AllValid(nodes) && Ascending(|nodes|, c) && c != []
  {
    Decision(c, EffectiveWeights(At(nodes, c), latencyAdjusted))
  }

  /** The draw falls into the share of the candidate at place `at`. */
  predicate Drawn(nodes: Nodes, c: seq<nat>, draw: nat, at: int)
    requires Ascending(|nodes|, c)
  {
    var pool := At(nodes, c);
    && 0 <= at < |c| && PrefixWeight(pool, |pool|) > 0
    && PrefixWeight(pool, at) <= draw % PrefixWeight(pool, |pool|) < PrefixWeight(pool, at + 1)
  }

  /** The place round robin takes `k` picks from now. */
  function Turn(next: nat, n: nat, k: nat): nat
    requires n > 0
  {
    (next + k) % n
  }

  /** In every round of consecutive picks, round robin reaches each place exactly once. */
  lemma {:induction false} RoundRobinReachesAll(next: nat, n: nat, at: nat) returns (i: nat)
    requires at < n
    ensures i < n && Turn(next, n, i) == at
    ensures forall k :: 0 <= k < n && Turn(next, n, k) == at ==> k == i
  {
    var start := next % n;
    i := if start <= at then at - start else at + n - start;
    forall k | 0 <= k < n ensures Turn(next, n, k) == if start + k < n then start + k else start + k - n {
      WrapsOnce(next, n, k);
    }
  }

  lemma {:induction false} WrapsOnce(next: nat, n: nat, k: nat)
    requires k < n
    ensures var s := next % n + k; (next + k) % n == if s < n then s else s - n
  {
    var q, s := next / n, next % n + k;
    assert next + k == q * n + s;
    if s < n {
      RemainderIs(next + k, n, q, s);
    } else {
      assert next + k == (q + 1) * n + (s - n);
      RemainderIs(next + k, n, q + 1, s - n);
    }
  }

  lemma {:induction false} RemainderIs(x: nat, n: nat, q: nat, r: nat)
    requires r < n && x == q * n + r
    ensures x % n == r
  {
    var d := x / n - q;
    assert x == (x / n) * n + x % n;
    assert d * n == r - x % n;
    AtLeastOnce(d, n);
  }

  lemma {:induction false} AtLeastOnce(d: int, n: int)
    requires n > 0
    ensures d >= 1 ==> d * n >= n
    ensures d <= -1 ==> d * n <= -n
  {
  }

  /** Below the total weight, exactly as many draws fall to a candidate as its weight says. */
  lemma {:induction false} DrawsPerCandidate(nodes: Nodes, c: seq<nat>, at: nat, draw: nat)
    requires Ascending(|nodes|, c) && at < |c|
    requires draw < PrefixWeight(At(nodes, c), |c|)
    ensures Drawn(nodes, c, draw, at)
            <==> PrefixWeight(At(nodes, c), at) <= draw < PrefixWeight(At(nodes, c), at) + nodes[c[at]].weight
  {
    var pool := At(nodes, c);
    SmallRemainder(draw, PrefixWeight(pool, |pool|));
    assert PrefixWeight(pool, at + 1) == PrefixWeight(pool, at) + pool[at].weight;
  }

  lemma {:induction false} SmallRemainder(x: nat, total: int)
    requires x < total
    ensures x % total == x
  {
  }

  /** From rest, adaptive latency takes a candidate that no other outweighs; an equally weighted rival with a smaller penalty rounds to the same weight. */
  lemma {:induction false} AdaptivePrefersFast(nodes: Nodes, c: seq<nat>, j: nat)
    requires AllValid(nodes) && Ascending(|nodes|, c) && j < |c| && WeightsOf(nodes, c) == Zeros(|c|)
    ensures var s, rival := nodes[Selection(nodes, Weighted(nodes, c, true))], nodes[c[j]];
            && rival.Effective(true) <= s.Effective(true)
            && (rival.weight == s.weight && Penalty(rival) <= Penalty(s) ==> rival.Effective(true) == s.Effective(true))
  {
    var w := Weighted(nodes, c, true).weights;
    var cw := WeightsOf(nodes, c);
    assert Bump(cw, w) == w;
    ArgMaxIsFirstMax(w);
    var s, rival := nodes[Selection(nodes, Weighted(nodes, c, true))], nodes[c[j]];
    assert w[j] == rival.Effective(true) && w[Choice(cw, w)] == s.Effective(true);
    if rival.weight == s.weight && Penalty(rival) <= Penalty(s) {
      FasterWeighsMore(rival, s);
    }
  }

  /** Which candidate each algorithm takes. */
  ghost predicate Chooses(algorithm: Algorithm, nodes: Nodes, next: nat, draw: nat, c: seq<nat>, r: nat)
    requires AllValid(nodes) && Ascending(|nodes|, c) && c != []
  {
    match algorithm
    case RoundRobin => r == c[next % |c|]
    case WeightedRoundRobin => r == Selection(nodes, Weighted(nodes, c, false))
    case AdaptiveLatency => r == Selection(nodes, Weighted(nodes, c, true))
    case LeastConnections => exists at :: LeastLoaded(nodes, c, at) && r == c[at]
    case RandomWeighted => exists at :: Drawn(nodes, c, draw, at) && r == c[at]
    case PriorityFailover => PriorityChoice(nodes, c, r)
  }

  ghost predicate PriorityChoice(nodes: Nodes, c: seq<nat>, r: nat)
    requires AllValid(nodes) && Ascending(|nodes|, c) && c != []
  {
    GroupSpec(nodes, c);
    var g := Group(nodes, c);
    r == if |g| == 1 then g[0] else Selection(nodes, Weighted(nodes, g, false))
  }

  /** Whatever the weights, priority failover never passes over a better priority. */
  lemma {:induction false} PriorityChoiceIsBest(nodes: Nodes, c: seq<nat>, r: nat)
    requires AllValid(nodes) && Ascending(|nodes|, c) && c != [] && PriorityChoice(nodes, c, r)
    ensures r in c && r < |nodes| && forall x :: x in c ==> nodes[r].priority <= nodes[x].priority
  {
    GroupSpec(nodes, c);
    assert r in Group(nodes, c);
  }

  /** The current weights each algorithm leaves. */
  ghost function Scheduled(algorithm: Algorithm, nodes: Nodes, c: seq<nat>): (r: Nodes)
    requires AllValid(nodes) && Ascending(|nodes|, c) && c != []
    ensures |r| == |nodes|
  {
    GroupSpec(nodes, c);
    var g := Group(nodes, c);
    match algorithm
    case WeightedRoundRobin => Picked(nodes, c, Weighted(nodes, c, false).weights)
    case AdaptiveLatency => Picked(nodes, c, Weighted(nodes, c, true).weights)
    case PriorityFailover => if |g| == 1 then nodes else Picked(nodes, g, Weighted(nodes, g, false).weights)
    case _ => nodes
  }

  lemma {:induction false} ScheduledBalances(algorithm: Algorithm, nodes: Nodes, c: seq<nat>)
    requires AllValid(nodes) && Ascending(|nodes|, c) && c != []
    ensures OnlyWeightsMoved(nodes, Scheduled(algorithm, nodes, c))
  {
    GroupSpec(nodes, c);
    PickedBalances(nodes, c, Weighted(nodes, c, algorithm == AdaptiveLatency).weights);
    PickedBalances(nodes, Group(nodes, c), Weighted(nodes, Group(nodes, c), false).weights);
  }

  /** The pool after a pick: weights scheduled, the selected origin counted. */
  ghost function Outcome(algorithm: Algorithm, nodes: Nodes, c: seq<nat>, r: nat): Nodes
    requires AllValid(nodes) && Ascending(|nodes|, c) && c != [] && r < |nodes|
  {
    var s := Scheduled(algorithm, nodes, c);
    s[r := s[r].(selections := s[r].selections + 1, active := s[r].active + 1)]
  }

  lemma {:induction false} OutcomeFacts(algorithm: Algorithm, nodes: Nodes, c: seq<nat>, r: nat)
    requires AllValid(nodes) && Ascending(|nodes|, c) && c != [] && r < |nodes|
    ensures var after := Outcome(algorithm, nodes, c, r);
            && |after| == |nodes| && AllValid(after) && Sum(CurrentWeights(after)) == Sum(CurrentWeights(nodes))
            && forall i :: 0 <= i < |nodes| ==>
                 after[i] == nodes[i].(
                   active := nodes[i].active + (if i == r then 1 else 0),
                   selections := nodes[i].selections + (if i == r then 1 else 0),
                   currentWeight := after[i].currentWeight)
  {
    ScheduledBalances(algorithm, nodes, c);
    assert CurrentWeights(Outcome(algorithm, nodes, c, r)) == CurrentWeights(Scheduled(algorithm, nodes, c));
  }

  // ----- picking again and again --------------------------------------------

  /** Equal in all that a weighted pick looks at. */
  ghost predicate SameSchedule(a: Nodes, b: Nodes) {
    |a| == |b| && forall i :: 0 <= i < |a| ==>
      a[i].weight == b[i].weight && a[i].healthy == b[i].healthy && a[i].currentWeight == b[i].currentWeight
  }

  lemma {:induction false} HealthDecides(a: Nodes, b: Nodes, exclude: set<nat>, healthyOnly: bool, n: nat)
    requires |a| == |b| && n <= |a| && forall i :: 0 <= i < |a| ==> a[i].healthy == b[i].healthy
    ensures Eligible(a, exclude, healthyOnly, n) == Eligible(b, exclude, healthyOnly, n)
  {
    if n > 0 {
      HealthDecides(a, b, exclude, healthyOnly, n - 1);
    }
  }

  /** Health alone decides who is a candidate. */
  lemma {:induction false} SameCandidates(a: Nodes, b: Nodes, exclude: set<nat>)
    requires |a| == |b| && forall i :: 0 <= i < |a| ==> a[i].healthy == b[i].healthy
    ensures Candidates(a, exclude) == Candidates(b, exclude)
  {
    HealthDecides(a, b, exclude, true, |a|);
    HealthDecides(a, b, exclude, false, |a|);
    HealthDecides(a, b, {}, true, |a|);
    HealthDecides(a, b, {}, false, |a|);
  }

  lemma {:induction false} SameCredited(a: Nodes, b: Nodes, c: seq<nat>, w: seq<int>, i: nat)
    requires SameSchedule(a, b) && Ascending(|a|, c) && |w| == |c| && i <= |c|
    ensures SameSchedule(Credited(a, c, w, i), Credited(b, c, w, i))
  {
    if i > 0 {
      SameCredited(a, b, c, w, i - 1);
    }
  }

  lemma {:induction false} SamePicked(a: Nodes, b: Nodes, c: seq<nat>, w: seq<int>)
    requires SameSchedule(a, b) && Ascending(|a|, c) && |w| == |c| > 0
    ensures SameSchedule(Picked(a, c, w), Picked(b, c, w)) && Selection(a, Decision(c, w)) == Selection(b, Decision(c, w))
  {
    SameCredited(a, b, c, w, |c|);
    assert WeightsOf(a, c) == WeightsOf(b, c);
  }

  /** The static parts of the pool stay as they are over repeated picks. */
  lemma {:induction false} RepeatedKeeps(nodes: Nodes, d: Decision, k: nat)
    requires Possible(|nodes|, d)
    ensures OnlyWeightsMoved(nodes, Repeated(nodes, d, k))
  {
    if k > 0 {
      RepeatedKeeps(nodes, d, k - 1);
      PickedBalances(Repeated(nodes, d, k - 1), d.candidates, d.weights);
    }
  }

  /** One more pick on a pool that has followed the schedule so far follows it again. */
  lemma {:induction false} PickFollows(first: Nodes, now: Nodes, exclude: set<nat>, d: Decision, k: nat, r: nat)
    requires AllValid(first) && AllValid(now) && first != [] && r < |now|
    requires Ascending(|first|, Candidates(first, exclude)) && Candidates(first, exclude) != []
    requires d == Weighted(first, Candidates(first, exclude), false) && SameSchedule(now, Repeated(first, d, k))
    ensures var c := Candidates(now, exclude);
            && c == d.candidates && Weighted(now, c, false) == d
            && Selection(now, d) == Selection(Repeated(first, d, k), d)
            && SameSchedule(Outcome(WeightedRoundRobin, now, c, r), Repeated(first, d, k + 1))
  {
    var spec := Repeated(first, d, k);
    RepeatedKeeps(first, d, k);
    SameCandidates(now, first, exclude);
    SameWeightsFrom(first, spec, now, d.candidates);
    SamePicked(now, spec, d.candidates, d.weights);
    assert Repeated(first, d, k + 1) == Picked(spec, d.candidates, d.weights);
    CountingKeepsSchedule(now, d.candidates, r, Repeated(first, d, k + 1));
  }

  /** Counting the selected origin changes nothing a weighted pick looks at. */
  lemma {:induction false} CountingKeepsSchedule(now: Nodes, c: seq<nat>, r: nat, spec: Nodes)
    requires AllValid(now) && Ascending(|now|, c) && c != [] && r < |now|
    requires SameSchedule(Picked(now, c, Weighted(now, c, false).weights), spec)
    ensures SameSchedule(Outcome(WeightedRoundRobin, now, c, r), spec)
  {
  }

  lemma {:induction false} SameWeightsFrom(first: Nodes, spec: Nodes, now: Nodes, c: seq<nat>)
    requires OnlyWeightsMoved(first, spec) && SameSchedule(now, spec) && AllValid(first) && AllValid(now)
    requires Ascending(|first|, c) && c != []
    ensures Weighted(now, c, false) == Weighted(first, c, false)
  {
    assert EffectiveWeights(At(now, c), false) == EffectiveWeights(At(first, c), false);
  }

  /** After `k` picks from `first` the pool is where the schedule says and the picks are the schedule's. */
  ghost predicate OnSchedule(first: Nodes, d: Decision, now: Nodes, picks: seq<nat>, k: nat)
    requires Possible(|first|, d)
  {
    && AllValid(now) && |now| == |first| && |picks| == k && SameSchedule(now, Repeated(first, d, k))
    && forall x :: Count(picks, x) == Selected(first, d, x, k)
  }

  lemma {:induction false} OneMorePick(first: Nodes, exclude: set<nat>, d: Decision, now: Nodes, picks: seq<nat>, k: nat, r: nat)
    requires AllValid(first) && first != [] && r < |now|
    requires Ascending(|first|, Candidates(first, exclude)) && Candidates(first, exclude) != []
    requires d == Weighted(first, Candidates(first, exclude), false) && OnSchedule(first, d, now, picks, k)
    requires Ascending(|now|, Candidates(now, exclude)) && Candidates(now, exclude) != []
    requires r == Selection(now, Weighted(now, Candidates(now, exclude), false))
    ensures OnSchedule(first, d, Outcome(WeightedRoundRobin, now, Candidates(now, exclude), r), picks + [r], k + 1)
  {
    PickFollows(first, now, exclude, d, k, r);
    OutcomeFacts(WeightedRoundRobin, now, Candidates(now, exclude), r);
    forall x ensures Count(picks + [r], x) == Selected(first, d, x, k + 1) {
      assert (picks + [r])[..k] == picks;
    }
  }

  class Pool {
    var nodes: Nodes
    const algorithm: Algorithm
    var next: nat

    constructor (nodes: Nodes, algorithm: Algorithm)
      requires AllValid(nodes)
      ensures this.nodes == nodes && this.algorithm == algorithm && next == 0
    {
      this.nodes, this.algorithm, next := nodes, algorithm, 0;
    }

    method EligibleNodes(exclude: set<nat>, healthyOnly: bool) returns (out: seq<nat>)
      ensures out == Eligible(nodes, exclude, healthyOnly, |nodes|)
    {
      out := [];
      for i := 0 to |nodes|
        invariant out == Eligible(nodes, exclude, healthyOnly, i)
      {
        if Keep(nodes, i, exclude, healthyOnly) {
          out := out + [i];
        }
      }
    }

    /** A connectivity probe looks at the pool and leaves no trace in it. */
    method PickProbe(exclude: set<nat>) returns (r: int)
      ensures IsProbeChoice(nodes, exclude, r)
    {
      ProbeSpec(nodes, exclude);
      var candidates := EligibleNodes(exclude, true);
      if candidates == [] {
        candidates := EligibleNodes(exclude, false);
      }
      if candidates == [] {
        return -1;
      }
      r := candidates[0];
    }

    method PickRoundRobin(candidates: seq<nat>) returns (r: nat)
      requires candidates != []
      modifies `next
      ensures next == old(next) + 1
      ensures r == candidates[old(next) % |candidates|]
    {
      r := candidates[next % |candidates|];
      next := next + 1;
    }

    /** One smooth weighted pick over the candidates; the pool's weights keep their total. */
    method PickSmoothWeighted(candidates: seq<nat>, latencyAdjusted: bool) returns (selected: nat)
      requires AllValid(nodes) && candidates != [] && Ascending(|nodes|, candidates)
      modifies `nodes
      ensures var w := EffectiveWeights(At(old(nodes), candidates), latencyAdjusted);
              && nodes == Picked(old(nodes), candidates, w)
              && selected == candidates[Choice(WeightsOf(old(nodes), candidates), w)]
    {
      var w := EffectiveWeights(At(nodes, candidates), latencyAdjusted);
      var total, at := CreditAll(candidates, w);
      selected := candidates[at];
      nodes := Credit(nodes, selected, -total);
    }

    /** Credit every candidate, remembering the first one with the highest weight. */
    method CreditAll(candidates: seq<nat>, w: seq<int>) returns (total: int, at: nat)
      requires Ascending(|nodes|, candidates) && |candidates| == |w| > 0
      modifies `nodes
      ensures nodes == Credited(old(nodes), candidates, w, |candidates|)
      ensures total == Sum(w)
      ensures at == Choice(WeightsOf(old(nodes), candidates), w)
    {
      total, at := 0, 0;
      for i := 0 to |candidates|
        invariant |nodes| == |old(nodes)| && Crediting(old(nodes), candidates, w, nodes, total, at, i)
      {
        CreditingStep(old(nodes), candidates, w, nodes, total, at, i);
        nodes := Credit(nodes, candidates[i], w[i]);
        total := total + w[i];
        if i == 0 || nodes[candidates[i]].currentWeight > nodes[candidates[at]].currentWeight {
          at := i;
        }
      }
      CreditingEnd(old(nodes), candidates, w, nodes, total, at);
    }

    /** Least loaded relative to weight; a tie goes to the smaller priority number, then to the first. */
    method PickLeastConnections(candidates: seq<nat>) returns (at: nat)
      requires AllValid(nodes) && candidates != [] && Ascending(|nodes|, candidates)
      ensures LeastLoaded(nodes, candidates, at)
    {
      at := 0;
      for i := 1 to |candidates|
        invariant at < i
        invariant forall j :: 0 <= j < i ==> !Preferred(nodes[candidates[j]], nodes[candidates[at]])
        invariant forall j :: 0 <= j < at ==> Preferred(nodes[candidates[at]], nodes[candidates[j]])
      {
        var left, right := nodes[candidates[i]], nodes[candidates[at]];
        if left.Load() < right.Load() || (left.Load() == right.Load() && left.priority < right.priority) {
          at := i;
        }
      }
    }

    /** The group with the smallest priority number, in candidate order. */
    method PriorityGroup(candidates: seq<nat>) returns (group: seq<nat>)
      requires candidates != [] && Ascending(|nodes|, candidates)
      ensures group == Group(nodes, candidates) && group != [] && Ascending(|nodes|, group)
      ensures forall g :: g in group <==>
                g in candidates && forall c :: c in candidates ==> nodes[g].priority <= nodes[c].priority
    {
      var minimum := nodes[candidates[0]].priority;
      for i := 1 to |candidates|
        invariant minimum == MinPriority(nodes, candidates, i)
      {
        if nodes[candidates[i]].priority < minimum {
          minimum := nodes[candidates[i]].priority;
        }
      }
      group := [];
      for i := 0 to |candidates|
        invariant group == AtPriority(nodes, candidates, minimum, i)
      {
        if nodes[candidates[i]].priority == minimum {
          group := group + [candidates[i]];
        }
      }
      GroupSpec(nodes, candidates);
    }

    method PickPriority(candidates: seq<nat>) returns (r: nat)
      requires AllValid(nodes) && candidates != [] && Ascending(|nodes|, candidates)
      modifies `nodes
      ensures PriorityChoice(old(nodes), candidates, r)
      ensures nodes == Scheduled(PriorityFailover, old(nodes), candidates)
      ensures r in candidates && forall c :: c in candidates ==> old(nodes)[r].priority <= old(nodes)[c].priority
    {
      var group := PriorityGroup(candidates);
      if |group| == 1 {
        r := group[0];
        assert r in group;
      } else {
        r := PickSmoothWeighted(group, false);
        assert r in group;
      }
    }

    /** A draw picks the candidate whose slice of the total weight holds the remainder. */
    method PickRandomWeighted(candidates: seq<nat>, draw: nat) returns (at: nat)
      requires AllValid(nodes) && candidates != [] && Ascending(|nodes|, candidates)
      ensures Drawn(nodes, candidates, draw, at)
    {
      ghost var pool := At(nodes, candidates);
      var total := 0;
      for i := 0 to |candidates|
        invariant total == PrefixWeight(pool, i)
        invariant total >= i
      {
        total := total + nodes[candidates[i]].weight;
      }
      var pick := draw % total;
      at := 0;
      while at < |candidates| && pick >= nodes[candidates[at]].weight
        invariant at <= |candidates|
        invariant pick >= 0 && pick + PrefixWeight(pool, at) == draw % total
      {
        pick := pick - nodes[candidates[at]].weight;
        at := at + 1;
      }
    }

    /** Pick an origin for a request and count it as active. */
    method Pick(exclude: set<nat>, draw: nat) returns (r: int)
      requires AllValid(nodes)
      modifies `next, `nodes
      ensures AllValid(nodes) && |nodes| == |old(nodes)|
      ensures r == -1 <==> nodes == []
      ensures r != -1 ==> 0 <= r < |nodes| && r in Candidates(old(nodes), exclude)
      ensures forall i :: 0 <= i < |nodes| ==>
                nodes[i] == old(nodes)[i].(
                  active := old(nodes)[i].active + (if i == r then 1 else 0),
                  selections := old(nodes)[i].selections + (if i == r then 1 else 0),
                  currentWeight := nodes[i].currentWeight)
      ensures r != -1 ==>
                var c := Candidates(old(nodes), exclude);
                && Ascending(|old(nodes)|, c) && c != [] && Chooses(algorithm, old(nodes), old(next), draw, c, r)
                && nodes == Outcome(algorithm, old(nodes), c, r)
      ensures Sum(CurrentWeights(nodes)) == old(Sum(CurrentWeights(nodes)))
      ensures next == old(next) + (if r != -1 && algorithm == RoundRobin then 1 else 0)
    {
      CandidatesAscend(nodes, exclude);
      var candidates := CandidateNodes(exclude);
      if candidates == [] {
        return -1;
      }
      r := Select(candidates, draw);
      nodes := nodes[r := nodes[r].(selections := nodes[r].selections + 1, active := nodes[r].active + 1)];
      OutcomeFacts(algorithm, old(nodes), candidates, r);
    }

    /**
     Weighted picks in a row, with nothing but the picks themselves changing the pool:
     they are the repeated picks whose fairness is proved above.
     */
    method PickMany(exclude: set<nat>, draws: seq<nat>) returns (picks: seq<nat>)
      requires AllValid(nodes) && nodes != [] && algorithm == WeightedRoundRobin
      modifies `next, `nodes
      ensures var c := Candidates(old(nodes), exclude);
              && Ascending(|old(nodes)|, c) && c != []
              && OnSchedule(old(nodes), Weighted(old(nodes), c, false), nodes, picks, |draws|)
    {
      CandidatesAscend(nodes, exclude);
      ghost var first := nodes;
      ghost var d := Weighted(nodes, Candidates(nodes, exclude), false);
      picks := [];
      for k := 0 to |draws|
        invariant |nodes| == |first| && OnSchedule(first, d, nodes, picks, k)
      {
        ghost var before := nodes;
        var r := PickWeighted(exclude, draws[k]);
        OneMorePick(first, exclude, d, before, picks, k, r);
        picks := picks + [r];
      }
    }

    /** One pick under the weighted algorithm. */
    method PickWeighted(exclude: set<nat>, draw: nat) returns (r: nat)
      requires AllValid(nodes) && nodes != [] && algorithm == WeightedRoundRobin
      modifies `next, `nodes
      ensures var c := Candidates(old(nodes), exclude);
              && Ascending(|old(nodes)|, c) && c != [] && r < |old(nodes)|
              && r == Selection(old(nodes), Weighted(old(nodes), c, false))
              && nodes == Outcome(WeightedRoundRobin, old(nodes), c, r)
      ensures |nodes| == |old(nodes)|
    {
      var p := Pick(exclude, draw);
      r := p;
    }

    /** Untried before tried, and healthy before unhealthy. */
    method CandidateNodes(exclude: set<nat>) returns (candidates: seq<nat>)
      ensures candidates == Candidates(nodes, exclude)
    {
      candidates := EligibleNodes(exclude, true);
      if candidates == [] {
        candidates := EligibleNodes(exclude, false);
      }
      if candidates == [] {
        candidates := EligibleNodes({}, true);
        if candidates == [] {
          candidates := EligibleNodes({}, false);
        }
      }
    }

    method Select(candidates: seq<nat>, draw: nat) returns (r: nat)
      requires AllValid(nodes) && candidates != [] && Ascending(|nodes|, candidates)
      modifies `next, `nodes
      ensures nodes == Scheduled(algorithm, old(nodes), candidates)
      ensures next == old(next) + (if algorithm == RoundRobin then 1 else 0)
      ensures Chooses(algorithm, old(nodes), old(next), draw, candidates, r) && r in candidates
    {
      match algorithm
      case WeightedRoundRobin => r := PickSmoothWeighted(candidates, false);
      case LeastConnections =>
        var at := PickLeastConnections(candidates);
        r := candidates[at];
      case PriorityFailover => r := PickPriority(candidates);
      case AdaptiveLatency => r := PickSmoothWeighted(candidates, true);
      case RandomWeighted =>
        var at := PickRandomWeighted(candidates, draw);
        r := candidates[at];
      case RoundRobin => r := PickRoundRobin(candidates);
    }

    method ReleaseActive(node: nat)
      requires node < |nodes|
      modifies `nodes
      ensures nodes == old(nodes)[node := old(nodes)[node].(active := old(nodes)[node].active - 1)]
    {
      nodes := nodes[node := nodes[node].(active := nodes[node].active - 1)];
    }

    /** A recovery or a failure is counted exactly when the state flips. */
    method SetHealth(node: nat, healthy: bool)
      requires node < |nodes|
      modifies `nodes
      ensures var was := old(nodes)[node];
              nodes == old(nodes)[node := was.(
                healthy := healthy,
                healthRecoveries := was.healthRecoveries + (if healthy && !was.healthy then 1 else 0),
                healthFailures := was.healthFailures + (if !healthy && was.healthy then 1 else 0))]
    {
      var previous := nodes[node];
      nodes := nodes[node := previous.(healthy := healthy)];
      if previous.healthy != healthy {
        if healthy {
          nodes := nodes[node := nodes[node].(healthRecoveries := previous.healthRecoveries + 1)];
        } else {
          nodes := nodes[node := nodes[node].(healthFailures := previous.healthFailures + 1)];
        }
      }
    }
  }
}
