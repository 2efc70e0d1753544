/**
 The attempt loop of one proxied request: pick an origin, call it, and on
 failure exclude it and try again. Everything the network, the clock and other
 requests decide arrives in an `Attempt`.
 */
module RetryLoop {
  import opened UpstreamPool

  /** What the outside world does around one attempt. */
  datatype Attempt = Attempt(
    health: seq<bool>,           // health flips by checks and other requests before the pick
    draw: nat,                   // pseudo-random draw
    cloneFails: bool,            // the outgoing request cannot be built
    transportFails: bool,        // RoundTrip returned an error
    status: int,
    latencyPower: real,
    clientGone: bool,            // the client's context is done after the call
    deadlineGone: bool,          // the request context is done after the release
    interrupted: bool,           // the context ended during the back-off pause
    clientGoneInPause: bool)

  /** Bad gateway, service unavailable, gateway timeout. */
  const GatewayErrors := {502, 503, 504}

  predicate RetryableStatus(status: int) {
    status == 502 || status == 503 || status == 504
  }

  datatype Answer = Canceled | Stale | BadGateway | Forwarded(status: int)

  datatype Result = Result(calls: nat, retries: nat, clientCanceled: bool, answer: Answer, tried: seq<nat>)

  /** State of the loop when it is left. */
  datatype Exit = Exit(clientCanceled: bool, failed: bool, response: bool, status: int, activeNode: int)

  ghost predicate SameActive(entry: Nodes, nodes: Nodes) {
    |nodes| == |entry| && forall i :: 0 <= i < |entry| ==> nodes[i].active == entry[i].active
  }

  /** Only health differs: no weight, counter or latency moved. */
  ghost predicate OnlyHealthMoved(entry: Nodes, nodes: Nodes) {
    |nodes| == |entry| && forall i :: 0 <= i < |entry| ==> nodes[i] == entry[i].(healthy := nodes[i].healthy)
  }

  /** Nothing but the origins' own answers decides how this run goes. */
  ghost predicate Undisturbed(env: seq<Attempt>) {
    forall i :: 0 <= i < |env| ==>
      !env[i].cloneFails && !env[i].clientGone && !env[i].deadlineGone && !env[i].interrupted
  }

  predicate Failed(a: Attempt) {
    a.transportFails || a.status in GatewayErrors
  }

  /** An origin is called again only after every configured origin was called. */
  ghost predicate NoEarlyRepeat(tried: seq<nat>, n: nat) {
    forall j, k :: 0 <= j < k < |tried| && tried[j] == tried[k] ==> forall i :: 0 <= i < n ==> i in tried[..k]
  }

  ghost predicate NoRepeat(tried: seq<nat>) {
    forall j, k :: 0 <= j < k < |tried| ==> tried[j] != tried[k]
  }

  function Origins(tried: seq<nat>): set<nat> {
    set x | x in tried
  }

  lemma {:induction false} OriginsGrow(tried: seq<nat>, node: nat)
    ensures Origins(tried + [node]) == Origins(tried) + {node}
  {
  }

  lemma {:induction false} NoEarlyRepeatStep(tried: seq<nat>, excluded: set<nat>, n: nat, c: nat)
    requires NoEarlyRepeat(tried, n) && excluded == Origins(tried)
    requires c in excluded ==> forall i :: 0 <= i < n ==> i in excluded
    ensures NoEarlyRepeat(tried + [c], n)
    ensures NoRepeat(tried) && c !in excluded ==> NoRepeat(tried + [c])
  {
    forall i | 0 <= i < n && c in tried ensures i in tried {
      assert c in excluded && i in excluded;
    }
    var longer := tried + [c];
    forall j, k | 0 <= j < k < |longer| && longer[j] == longer[k]
      ensures forall i :: 0 <= i < n ==> i in longer[..k]
    {
      assert longer[..k] == tried[..k];
      if k == |tried| {
        assert tried[..k] == tried;
      }
    }
  }

  /** Health checks and other requests may flip health at any time. */
  method Disturb(pool: Pool, health: seq<bool>)
    requires AllValid(pool.nodes)
    modifies pool`nodes
    ensures AllValid(pool.nodes) && OnlyHealthMoved(old(pool.nodes), pool.nodes)
  {
    if |health| == |pool.nodes| {
      pool.nodes := seq(|health|, i requires 0 <= i < |health| && |health| == |pool.nodes| reads pool =>
        pool.nodes[i].(healthy := health[i]));
    }
  }

  method PickFor(pool: Pool, probe: bool, excluded: set<nat>, draw: nat) returns (node: int)
    requires AllValid(pool.nodes)
    modifies pool`nodes, pool`next
    ensures AllValid(pool.nodes) && |pool.nodes| == |old(pool.nodes)|
    ensures -1 <= node < |pool.nodes|
    ensures node == -1 <==> if probe then forall i :: 0 <= i < |pool.nodes| ==> i in excluded else pool.nodes == []
    ensures probe ==> pool.nodes == old(pool.nodes) && pool.next == old(pool.next) && node !in excluded
    ensures node in excluded ==> forall i :: 0 <= i < |pool.nodes| ==> i in excluded
    ensures forall i :: 0 <= i < |pool.nodes| ==>
              pool.nodes[i].active == old(pool.nodes)[i].active + (if !probe && i == node then 1 else 0)
  {
    ghost var before := pool.nodes;
    if probe {
      node := pool.PickProbe(excluded);
    } else {
      node := pool.Pick(excluded, draw);
      if node != -1 {
        forall i | 0 <= i < |before| ensures node in excluded ==> i in excluded {
          CandidatesPreferUntried(before, excluded, node, i);
        }
      }
    }
    assert -1 !in excluded;
  }

  method Release(pool: Pool, probe: bool, node: nat)
    requires AllValid(pool.nodes) && node < |pool.nodes|
    requires !probe ==> pool.nodes[node].active > 0
    modifies pool`nodes
    ensures AllValid(pool.nodes) && |pool.nodes| == |old(pool.nodes)|
    ensures pool.nodes
         == if probe then old(pool.nodes) else old(pool.nodes)[node := old(pool.nodes)[node].(active := old(pool.nodes)[node].active - 1)]
  {
    if !probe {
      pool.ReleaseActive(node);
    }
  }

  /** Bookkeeping after a call: latency and health, never for a probe, never blaming a canceled client. */
  method Learn(pool: Pool, probe: bool, node: nat, a: Attempt, failed: bool, canceled: bool)
    requires AllValid(pool.nodes) && node < |pool.nodes| && a.latencyPower > 0.0
    modifies pool`nodes
    ensures AllValid(pool.nodes) && |pool.nodes| == |old(pool.nodes)|
    ensures probe || canceled ==> pool.nodes == old(pool.nodes)
    ensures !probe && !canceled ==> pool.nodes[node].healthy == !failed
    ensures forall i :: 0 <= i < |pool.nodes| ==> pool.nodes[i].active == old(pool.nodes)[i].active
  {
    if !probe && !canceled {
      pool.nodes := pool.nodes[node := pool.nodes[node].(latencyPower := a.latencyPower)];
      pool.SetHealth(node, !failed);
    }
  }

  ghost predicate AllTried(tried: set<nat>, n: nat) {
    forall i :: 0 <= i < n ==> i in tried
  }

  /** How a call ended: its answer is used, the client has gone, or the origin failed. */
  datatype End = Answers | ClientGone | OriginFailed

  datatype Turn = NoOrigin | NotSent | Called(node: nat, end: End)

  /** One turn of the loop. Only the origin whose answer is used stays counted. */
  method Once(pool: Pool, probe: bool, excluded: set<nat>, a: Attempt, canRetry: bool) returns (turn: Turn)
    requires AllValid(pool.nodes) && a.latencyPower > 0.0
    modifies pool`nodes, pool`next
    ensures AllValid(pool.nodes) && |pool.nodes| == |old(pool.nodes)|
    ensures turn.NoOrigin? <==> if probe then forall i :: 0 <= i < |pool.nodes| ==> i in excluded else pool.nodes == []
    ensures !turn.NoOrigin? ==> (turn.NotSent? <==> a.cloneFails)
    ensures turn.Called? ==>
              && turn.node < |pool.nodes| && (probe ==> turn.node !in excluded)
              && (turn.node in excluded ==> forall i :: 0 <= i < |pool.nodes| ==> i in excluded)
              && (turn.end == ClientGone <==> a.transportFails && a.clientGone)
              && (turn.end == Answers <==> !a.transportFails && (a.status !in GatewayErrors || !canRetry
                                                                 || (probe && AllTried(excluded + {turn.node}, |pool.nodes|))))
              && (!probe && turn.end != ClientGone ==> pool.nodes[turn.node].healthy == !Failed(a))
    ensures forall i :: 0 <= i < |pool.nodes| ==>
              pool.nodes[i].active
              == old(pool.nodes)[i].active + (if !probe && turn.Called? && turn.end == Answers && i == turn.node then 1 else 0)
    ensures probe ==> OnlyHealthMoved(old(pool.nodes), pool.nodes) && pool.next == old(pool.next)
  {
    Disturb(pool, a.health);
    var node := PickFor(pool, probe, excluded, a.draw);
    if node == -1 {
      return NoOrigin;
    }
    if a.cloneFails {
      Release(pool, probe, node);
      return NotSent;
    }
    var canceled := a.transportFails && a.clientGone;
    var retryableResponse := !a.transportFails && RetryableStatus(a.status);
    var failed := a.transportFails || retryableResponse;
    Learn(pool, probe, node, a, failed, canceled);
    if !failed {
      return Called(node, Answers);
    }
    if canceled {
      Release(pool, probe, node);
      return Called(node, ClientGone);
    }
    var stranded := false;
    if retryableResponse && canRetry && probe {
      var other := pool.PickProbe(excluded + {node as nat});
      stranded := other == -1;
    }
    if stranded || (retryableResponse && !canRetry) {
      return Called(node, Answers);
    }
    Release(pool, probe, node);
    return Called(node, OriginFailed);
  }

  /** The last call gave a complete answer that is good enough, or that nobody else can better. */
  ghost predicate Answered(env: seq<Attempt>, calls: nat, attempts: nat, probe: bool, tried: seq<nat>, n: nat)
    requires calls <= |env|
  {
    && calls > 0 && !env[calls - 1].transportFails
    && (env[calls - 1].status !in GatewayErrors || calls == attempts || (probe && AllTried(Origins(tried), n)))
  }

  /** The client was gone after the last call, or left during the pause before another one. */
  ghost predicate ClientLeft(env: seq<Attempt>, calls: nat, attempts: nat, probe: bool, tried: seq<nat>, n: nat)
    requires calls <= |env|
  {
    && calls > 0 && !Answered(env, calls, attempts, probe, tried, n)
    && var a := env[calls - 1];
       (a.transportFails && a.clientGone) || (calls < attempts && !a.deadlineGone && a.interrupted && a.clientGoneInPause)
  }

  /** How a turn ended tells whether the request has its answer. */
  lemma {:induction false} TurnDecides(env: seq<Attempt>, calls: nat, attempts: nat, probe: bool, tried: seq<nat>, n: nat, end: End)
    requires 0 < calls <= attempts <= |env|
    requires var a := env[calls - 1];
             && (end == ClientGone <==> a.transportFails && a.clientGone)
             && (end == Answers <==> !a.transportFails && (a.status !in GatewayErrors || calls >= attempts
                                                           || (probe && AllTried(Origins(tried), n))))
    ensures Answered(env, calls, attempts, probe, tried, n) <==> end == Answers
    ensures var a := env[calls - 1];
            ClientLeft(env, calls, attempts, probe, tried, n) <==>
              end == ClientGone
              || (end == OriginFailed && calls < attempts && !a.deadlineGone && a.interrupted && a.clientGoneInPause)
  {
  }

  /** The loop: at its end at most the node being answered from is still counted as active. */
  method Attempts(pool: Pool, probe: bool, attempts: nat, env: seq<Attempt>)
    returns (calls: nat, retries: nat, exit: Exit, tried: seq<nat>)
    requires AllValid(pool.nodes) && |env| >= attempts > 0
    requires forall a :: a in env ==> a.latencyPower > 0.0
    modifies pool`nodes, pool`next
    ensures AllValid(pool.nodes) && |pool.nodes| == |old(pool.nodes)|
    ensures -1 <= exit.activeNode < |pool.nodes|
    ensures forall i :: 0 <= i < |pool.nodes| ==>
              pool.nodes[i].active == old(pool.nodes)[i].active + (if !probe && i == exit.activeNode then 1 else 0)
    ensures probe ==> OnlyHealthMoved(old(pool.nodes), pool.nodes) && pool.next == old(pool.next)
    ensures calls == |tried| <= attempts
    ensures retries == if calls > 1 then calls - 1 else 0
    ensures forall i :: 0 <= i < |tried| ==> tried[i] < |pool.nodes|
    ensures NoEarlyRepeat(tried, |pool.nodes|)
    ensures probe ==> NoRepeat(tried)
    ensures exit.response && !exit.failed ==> tried != [] && exit.activeNode == tried[|tried| - 1]
    ensures exit.response && !exit.failed && !probe ==> pool.nodes[exit.activeNode].healthy == (exit.status !in GatewayErrors)
    ensures calls <= |env| && (exit.response && !exit.failed <==> Answered(env, calls, attempts, probe, tried, |pool.nodes|))
    ensures exit.response && !exit.failed ==> exit.status == env[calls - 1].status
    ensures exit.clientCanceled <==> ClientLeft(env, calls, attempts, probe, tried, |pool.nodes|)
    ensures forall i :: 0 <= i < calls - 1 ==> Failed(env[i])
    ensures Undisturbed(env) && !probe && pool.nodes != [] && (exit.failed || !exit.response) ==> calls == attempts
  {
    var excluded: set<nat> := {};
    calls, retries, tried := 0, 0, [];
    exit := Exit(false, false, false, 0, -1);
    ghost var entry := pool.nodes;
    var attempt := 0;
    while attempt < attempts
      invariant AllValid(pool.nodes) && SameActive(entry, pool.nodes)
      invariant probe ==> OnlyHealthMoved(entry, pool.nodes) && pool.next == old(pool.next)
      invariant attempt < attempts || Undisturbed(env) ==> calls == attempt
      invariant calls == |tried| <= attempts
      invariant forall i :: 0 <= i < calls ==> Failed(env[i])
      invariant retries == if calls > 1 then calls - 1 else 0
      invariant excluded == Origins(tried)
      invariant forall i :: 0 <= i < |tried| ==> tried[i] < |entry|
      invariant NoEarlyRepeat(tried, |entry|)
      invariant probe ==> NoRepeat(tried)
      invariant exit.activeNode == -1 && (exit.failed || !exit.response)
      invariant !Answered(env, calls, attempts, probe, tried, |entry|)
      invariant exit.clientCanceled <==> ClientLeft(env, calls, attempts, probe, tried, |entry|)
    {
      var a := env[attempt];
      var turn := Once(pool, probe, excluded, a, attempt + 1 < attempts);
      if !turn.Called? {
        exit := exit.(failed := true);
        break;
      }
      calls := calls + 1;
      if calls > 1 {
        retries := calls - 1;
      }
      NoEarlyRepeatStep(tried, excluded, |entry|, turn.node);
      OriginsGrow(tried, turn.node);
      tried := tried + [turn.node];
      excluded := excluded + {turn.node};
      TurnDecides(env, calls, attempts, probe, tried, |entry|, turn.end);
      if turn.end == Answers {
        exit := Exit(false, false, true, a.status, turn.node);
        break;
      }
      exit := Exit(turn.end == ClientGone, true, false, 0, -1);
      if turn.end == ClientGone || a.deadlineGone {
        break;
      }
      attempt := attempt + 1;
      if attempt < attempts && a.interrupted {
        exit := exit.(clientCanceled := a.clientGoneInPause);
        attempt := attempts + 1;
      }
    }
  }

  function Budget(replayable: bool, retryCount: nat): nat {
    if replayable then 1 + retryCount else 1
  }

  ghost predicate Complete(r: Result, env: seq<Attempt>, replayable: bool, retryCount: nat, probe: bool, n: nat)
    requires r.calls <= |env|
  {
    Answered(env, r.calls, Budget(replayable, retryCount), probe, r.tried, n)
  }

  ghost predicate Left(r: Result, env: seq<Attempt>, replayable: bool, retryCount: nat, probe: bool, n: nat)
    requires r.calls <= |env|
  {
    ClientLeft(env, r.calls, Budget(replayable, retryCount), probe, r.tried, n)
  }

  /** What the client gets: nothing if it left, the origin's own complete answer unless a stale copy is better, else the stale copy or a 502. */
  function AnswerOf(left: bool, complete: bool, env: seq<Attempt>, calls: nat, hasStale: bool): Answer
    requires calls <= |env| && (complete ==> calls > 0)
  {
    if left then Canceled
    else if complete && !(hasStale && env[calls - 1].status in GatewayErrors) then Forwarded(env[calls - 1].status)
    else if hasStale then Stale else BadGateway
  }

  /** One request against its origins: every pick is released, whichever way the request ends. */
  method Fetch(pool: Pool, probe: bool, replayable: bool, retryCount: nat, hasStale: bool,
               env: seq<Attempt>, clientGoneAtEnd: bool)
    returns (r: Result)
    requires AllValid(pool.nodes) && |env| >= 1 + retryCount
    requires forall a :: a in env ==> a.latencyPower > 0.0
    modifies pool`nodes, pool`next
    ensures AllValid(pool.nodes) && SameActive(old(pool.nodes), pool.nodes)
    ensures probe ==> OnlyHealthMoved(old(pool.nodes), pool.nodes) && pool.next == old(pool.next)
    ensures r.calls == |r.tried| <= if replayable then 1 + retryCount else 1
    ensures r.retries == if r.calls > 1 then r.calls - 1 else 0
    ensures NoEarlyRepeat(r.tried, |pool.nodes|)
    ensures probe ==> NoRepeat(r.tried)
    ensures clientGoneAtEnd ==> r.answer == Canceled
    ensures r.answer == Canceled <==> r.clientCanceled
    ensures r.calls <= |env| &&
            r.answer == AnswerOf(clientGoneAtEnd || Left(r, env, replayable, retryCount, probe, |pool.nodes|),
                                 Complete(r, env, replayable, retryCount, probe, |pool.nodes|), env, r.calls, hasStale)
    ensures r.answer.Forwarded? <==>
              && !clientGoneAtEnd && !Left(r, env, replayable, retryCount, probe, |pool.nodes|)
              && Complete(r, env, replayable, retryCount, probe, |pool.nodes|)
              && !(hasStale && env[r.calls - 1].status in GatewayErrors)
    ensures r.answer.Forwarded? ==> r.calls > 0 && r.answer.status == env[r.calls - 1].status
    ensures r.answer == Stale ==> hasStale
    ensures hasStale ==> r.answer != BadGateway
    ensures forall i :: 0 <= i < r.calls - 1 ==> Failed(env[i])
    ensures r.answer == BadGateway && Undisturbed(env) && !probe && pool.nodes != [] ==>
              r.calls == if replayable then 1 + retryCount else 1
  {
    var attempts := if replayable then 1 + retryCount else 1;
    var calls, retries, exit, tried := Attempts(pool, probe, attempts, env);
    var answer: Answer;
    if exit.clientCanceled || clientGoneAtEnd {
      answer := Canceled;
    } else if exit.failed || !exit.response {
      answer := if hasStale then Stale else BadGateway;
    } else if hasStale && RetryableStatus(exit.status) {
      answer := Stale;
    } else {
      answer := Forwarded(exit.status);
    }
    if exit.activeNode != -1 {
      Release(pool, probe, exit.activeNode);
    }
    r := Result(calls, retries, answer == Canceled, answer, tried);
  }
}
