/**
 Any number of requests on one pool. Each runs the attempt loop of `RetryLoop` on its
 own; here their picks, outcomes and releases interleave freely with each other and with
 health checks. Probes hold nothing and do not appear.
 */
module Requests {
  import opened UpstreamPool
  import opened RetryLoop

  type Id = nat

  /** A request: its budget, the origins it has tried, and the origin it is counted on, if any. */
  datatype Req = Req(attempts: nat, tried: seq<nat>, holds: int)

  datatype State = State(nodes: Nodes, reqs: map<Id, Req>)

  datatype Step =
    | Arrive(r: Id, attempts: nat)
    | Take(r: Id, node: nat, after: Nodes)
    | Settle(r: Id, healthy: bool)
    | Release(r: Id)
    | Leave(r: Id)
    | Check(node: nat, healthy: bool)

  /** A pick of the pool as others see it: one more active request on the node, health untouched. */
  ghost predicate PickedOne(before: Nodes, after: Nodes, node: nat) {
    |after| == |before| && forall i :: 0 <= i < |before| ==>
      after[i].active == before[i].active + (if i == node then 1 else 0) && after[i].healthy == before[i].healthy
  }

  /** That is what the pool's own pick does, whatever the algorithm. */
  lemma {:induction false} PoolPicksOne(algorithm: Algorithm, nodes: Nodes, exclude: set<nat>, r: nat)
    requires AllValid(nodes) && nodes != [] && r < |nodes|
    ensures var c := Candidates(nodes, exclude);
            Ascending(|nodes|, c) && c != [] && PickedOne(nodes, Outcome(algorithm, nodes, c, r), r)
  {
    CandidatesAscend(nodes, exclude);
    OutcomeFacts(algorithm, nodes, Candidates(nodes, exclude), r);
  }

  ghost predicate Enabled(s: State, step: Step) {
    match step
    case Arrive(r, _) => r !in s.reqs
    case Take(r, node, after) =>
      && r in s.reqs && s.reqs[r].holds == -1 && |s.reqs[r].tried| < s.reqs[r].attempts
      && node < |s.nodes| && node in Candidates(s.nodes, Origins(s.reqs[r].tried)) && PickedOne(s.nodes, after, node)
    case Settle(r, _) => r in s.reqs && 0 <= s.reqs[r].holds < |s.nodes|
    case Release(r) => r in s.reqs && 0 <= s.reqs[r].holds < |s.nodes|
    case Leave(r) => r in s.reqs && s.reqs[r].holds == -1
    case Check(node, _) => node < |s.nodes|
  }

  function Healthier(nodes: Nodes, n: int, healthy: bool): Nodes
    requires 0 <= n < |nodes|
  {
    nodes[n := nodes[n].(healthy := healthy)]
  }

  function Released(nodes: Nodes, n: int): Nodes
    requires 0 <= n < |nodes|
  {
    nodes[n := nodes[n].(active := nodes[n].active - 1)]
  }

  ghost function Do(s: State, step: Step): State
    requires Enabled(s, step)
  {
    match step
    case Arrive(r, attempts) => s.(reqs := s.reqs[r := Req(attempts, [], -1)])
    case Take(r, node, after) =>
      State(after, s.reqs[r := s.reqs[r].(tried := s.reqs[r].tried + [node], holds := node)])
    case Settle(r, healthy) => s.(nodes := Healthier(s.nodes, s.reqs[r].holds, healthy))
    case Release(r) => State(Released(s.nodes, s.reqs[r].holds), s.reqs[r := s.reqs[r].(holds := -1)])
    case Leave(r) => s.(reqs := s.reqs - {r})
    case Check(node, healthy) => s.(nodes := Healthier(s.nodes, node, healthy))
  }

  /** The requests counted on a node. */
  function Holders(s: State, node: nat): set<Id> {
    set r | r in s.reqs && s.reqs[r].holds == node
  }

  /** A request within its budget that repeats no origin while another is untried. */
  ghost predicate Fair(q: Req, n: nat) {
    |q.tried| <= q.attempts && NoEarlyRepeat(q.tried, n) && -1 <= q.holds < n
  }

  ghost predicate Counted(s: State, base: seq<int>) {
    |s.nodes| == |base| && forall i :: 0 <= i < |base| ==> s.nodes[i].active == base[i] + |Holders(s, i)|
  }

  ghost predicate Inv(s: State, base: seq<int>) {
    Counted(s, base) && forall r :: r in s.reqs ==> Fair(s.reqs[r], |base|)
  }

  lemma {:induction false} HoldersAfter(s: State, step: Step, i: nat)
    requires Enabled(s, step)
    ensures Holders(Do(s, step), i)
         == match step
            case Take(r, node, _) => if node == i then Holders(s, i) + {r} else Holders(s, i)
            case Release(r) => Holders(s, i) - {r}
            case _ => Holders(s, i)
  {
  }

  lemma {:induction false} ActiveAfter(s: State, step: Step, i: nat)
    requires Enabled(s, step) && i < |s.nodes|
    ensures |Do(s, step).nodes| == |s.nodes|
    ensures Do(s, step).nodes[i].active
         == match step
            case Take(_, node, _) => s.nodes[i].active + (if node == i then 1 else 0)
            case Release(r) => s.nodes[i].active - (if s.reqs[r].holds == i then 1 else 0)
            case _ => s.nodes[i].active
  {
  }

  lemma {:induction false} StepKeepsCount(s: State, step: Step, base: seq<int>, i: nat)
    requires Enabled(s, step) && Counted(s, base) && i < |base|
    ensures Do(s, step).nodes[i].active == base[i] + |Holders(Do(s, step), i)|
  {
    HoldersAfter(s, step, i);
    ActiveAfter(s, step, i);
    if step.Take? {
      assert step.r !in Holders(s, i);
    } else if step.Release? {
      assert step.r in Holders(s, i) <==> s.reqs[step.r].holds == i;
      assert step.r !in Holders(s, i) ==> Holders(s, i) - {step.r} == Holders(s, i);
    }
  }

  lemma {:induction false} TakeStaysFair(s: State, q: Req, node: nat)
    requires Fair(q, |s.nodes|) && |q.tried| < q.attempts && node < |s.nodes| && node in Candidates(s.nodes, Origins(q.tried))
    ensures Fair(q.(tried := q.tried + [node], holds := node), |s.nodes|)
  {
    if node in Origins(q.tried) {
      forall i | 0 <= i < |s.nodes| ensures i in Origins(q.tried) {
        CandidatesPreferUntried(s.nodes, Origins(q.tried), node, i);
      }
    }
    NoEarlyRepeatStep(q.tried, Origins(q.tried), |s.nodes|, node);
  }

  lemma {:induction false} StepKeepsInv(s: State, step: Step, base: seq<int>)
    requires Inv(s, base) && Enabled(s, step)
    ensures Inv(Do(s, step), base)
  {
    forall i | 0 <= i < |base| ensures |Do(s, step).nodes| == |base| && Do(s, step).nodes[i].active == base[i] + |Holders(Do(s, step), i)| {
      ActiveAfter(s, step, i);
      StepKeepsCount(s, step, base, i);
    }
    if step.Take? {
      TakeStaysFair(s, s.reqs[step.r], step.node);
    }
  }

  ghost predicate Follows(run: seq<State>, steps: seq<Step>, i: int)
    requires |run| == |steps| + 1
  {
    0 <= i < |steps| && Enabled(run[i], steps[i]) && run[i + 1] == Do(run[i], steps[i])
  }

  /** A run that begins with nobody in flight. */
  ghost predicate IsRun(run: seq<State>, steps: seq<Step>) {
    |run| == |steps| + 1 && run[0].reqs == map[] && forall i :: 0 <= i < |steps| ==> Follows(run, steps, i)
  }

  function Actives(nodes: Nodes): (s: seq<int>)
    ensures |s| == |nodes|
  {
    seq(|nodes|, i requires 0 <= i < |nodes| => nodes[i].active)
  }

  lemma {:induction false} EveryStateHolds(run: seq<State>, steps: seq<Step>, i: nat)
    requires IsRun(run, steps) && i < |run|
    ensures Inv(run[i], Actives(run[0].nodes))
  {
    if i == 0 {
      forall n: nat ensures Holders(run[0], n) == {} {
      }
    } else {
      EveryStateHolds(run, steps, i - 1);
      assert Follows(run, steps, i - 1);
      StepKeepsInv(run[i - 1], steps[i - 1], Actives(run[0].nodes));
    }
  }

  /**
   In every interleaving a node's active count is its count at the start plus the
   requests in flight on it, so it is back when nobody is in flight.
   */
  lemma {:induction false} ActiveIsInFlight(run: seq<State>, steps: seq<Step>, i: nat, node: nat)
    requires IsRun(run, steps) && i < |run| && node < |run[0].nodes|
    ensures |run[i].nodes| == |run[0].nodes|
    ensures run[i].nodes[node].active == run[0].nodes[node].active + |Holders(run[i], node)|
    ensures Holders(run[i], node) == {} ==> run[i].nodes[node].active == run[0].nodes[node].active
  {
    EveryStateHolds(run, steps, i);
    assert Actives(run[0].nodes)[node] == run[0].nodes[node].active;
  }

  /** Whatever the others do to health and counts, each request keeps its budget and repeats no origin too early. */
  lemma {:induction false} EachRequestIsFair(run: seq<State>, steps: seq<Step>, i: nat, r: Id)
    requires IsRun(run, steps) && i < |run| && r in run[i].reqs
    ensures |run[i].reqs[r].tried| <= run[i].reqs[r].attempts
    ensures NoEarlyRepeat(run[i].reqs[r].tried, |run[0].nodes|)
  {
    EveryStateHolds(run, steps, i);
  }
}
