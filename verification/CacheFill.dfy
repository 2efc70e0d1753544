/**
 Filling the cache under the per-key lock: a request that found nothing to serve
 takes the lock of its key, looks again, and only then fetches. Requests, losses of
 entries (expiry, eviction, purge) and answers that may not be stored interleave
 freely.
 */
module CacheFill {
  import KeyLock

  type Thread = KeyLock.Thread

  /**
   `stored` are the keys with a servable entry, `fetching` the requests inside the
   origin fetch. `filling` counts by key the fetches of requests that would have taken
   an entry; a request that refuses what is stored (no lookup, or a stricter request
   max-age) fetches without being counted. `lost` counts entries that went away and
   fetches that stored nothing.
   */
  datatype State = State(
    lock: KeyLock.State, stored: set<string>, fetching: set<Thread>,
    filling: multiset<string>, lost: multiset<string>)

  datatype Step =
    | Lock(step: KeyLock.Step)
    | Fetch(t: Thread, accepts: bool)
    | Finish(t: Thread, store: bool)
    | Lose(key: string)

  const Initial := State(KeyLock.Initial, {}, {}, multiset{}, multiset{})

  predicate Holds(s: State, t: Thread) {
    t in s.lock.phase && s.lock.phase[t].Holding?
  }

  function KeyOf(s: State, t: Thread): string
    requires t in s.lock.phase
  {
    s.lock.phase[t].key
  }

  /** A request fetches after its second lookup, under the lock, and unlocks only when the fetch is over. */
  predicate Enabled(s: State, step: Step) {
    match step
    case Lock(l) => KeyLock.Enabled(s.lock, l) && (l.Unlock? ==> l.t !in s.fetching)
    case Fetch(t, accepts) => Holds(s, t) && t !in s.fetching && (accepts ==> KeyOf(s, t) !in s.stored)
    case Finish(t, _) => Holds(s, t) && t in s.fetching
    case Lose(key) => key in s.stored
  }

  function Do(s: State, step: Step): State
    requires Enabled(s, step)
  {
    match step
    case Lock(l) => s.(lock := KeyLock.Apply(s.lock, l))
    case Fetch(t, accepts) =>
      s.(fetching := s.fetching + {t}, filling := if accepts then s.filling + multiset{KeyOf(s, t)} else s.filling)
    case Finish(t, store) =>
      var k := KeyOf(s, t);
      s.(fetching := s.fetching - {t}, stored := if store then s.stored + {k} else s.stored,
         lost := if store then s.lost else s.lost + multiset{k})
    case Lose(key) => s.(stored := s.stored - {key}, lost := s.lost + multiset{key})
  }

  ghost predicate FetchersHold(s: State) {
    forall t :: t in s.fetching ==> Holds(s, t)
  }

  predicate Fetches(s: State, t: Thread, key: string) {
    t in s.fetching && t in s.lock.phase && s.lock.phase[t].key == key
  }

  /** An entry is there or on its way. */
  ghost predicate Covered(s: State, key: string) {
    key in s.stored || exists t :: Fetches(s, t, key)
  }

  ghost predicate Paid(s: State, key: string) {
    s.filling[key] <= s.lost[key] + (if Covered(s, key) then 1 else 0)
  }

  ghost predicate Inv(s: State, key: string) {
    KeyLock.Inv(s.lock) && FetchersHold(s) && Paid(s, key)
  }

  lemma {:induction false} OneHolder(s: State, t: Thread, u: Thread)
    requires KeyLock.Inv(s.lock) && Holds(s, t) && Holds(s, u) && KeyOf(s, t) == KeyOf(s, u)
    ensures t == u
  {
    assert KeyLock.SharedLock(s.lock) && KeyLock.OwnersHold(s.lock);
    assert s.lock.phase[t].lock == s.lock.phase[u].lock;
  }

  /** Lock steps leave every fetch where it is. */
  lemma {:induction false} LockStepKeeps(s: State, l: KeyLock.Step, key: string)
    requires Inv(s, key) && Enabled(s, Lock(l))
    ensures Inv(Do(s, Lock(l)), key)
  {
    KeyLock.StepKeepsInv(s.lock, l);
    var s' := Do(s, Lock(l));
    forall t | t in s.fetching ensures Holds(s', t) && KeyOf(s', t) == KeyOf(s, t) {
      assert Holds(s, t);
    }
    if t :| Fetches(s, t, key) {
      assert Fetches(s', t, key);
    }
  }

  lemma {:induction false} FetchKeeps(s: State, t: Thread, accepts: bool, key: string)
    requires Inv(s, key) && Enabled(s, Fetch(t, accepts))
    ensures Inv(Do(s, Fetch(t, accepts)), key)
  {
    var s' := Do(s, Fetch(t, accepts));
    forall u | Fetches(s, u, key) ensures Fetches(s', u, key) && (KeyOf(s, t) != key) {
      assert Holds(s, u);
      if KeyOf(s, t) == key { OneHolder(s, t, u); }
    }
    if KeyOf(s, t) == key {
      assert Fetches(s', t, key);
    }
  }

  lemma {:induction false} FinishKeeps(s: State, t: Thread, store: bool, key: string)
    requires Inv(s, key) && Enabled(s, Finish(t, store))
    ensures Inv(Do(s, Finish(t, store)), key)
  {
    var s' := Do(s, Finish(t, store));
    if KeyOf(s, t) != key {
      forall u | Fetches(s, u, key) ensures Fetches(s', u, key) {
      }
    }
  }

  lemma {:induction false} StepKeepsInv(s: State, step: Step, key: string)
    requires Inv(s, key) && Enabled(s, step)
    ensures Inv(Do(s, step), key)
  {
    match step
    case Lock(l) => LockStepKeeps(s, l, key);
    case Fetch(t, accepts) => FetchKeeps(s, t, accepts, key);
    case Finish(t, store) => FinishKeeps(s, t, store, key);
    case Lose(k) =>
      forall u | Fetches(s, u, key) ensures Fetches(Do(s, step), u, key) {
      }
  }

  predicate Follows(run: seq<State>, steps: seq<Step>, i: int)
    requires |run| == |steps| + 1
  {
    0 <= i < |steps| && Enabled(run[i], steps[i]) && run[i + 1] == Do(run[i], steps[i])
  }

  ghost predicate IsRun(run: seq<State>, steps: seq<Step>) {
    |run| == |steps| + 1 && run[0] == Initial && forall i :: 0 <= i < |steps| ==> Follows(run, steps, i)
  }

  lemma {:induction false} EveryStateHolds(run: seq<State>, steps: seq<Step>, i: nat, key: string)
    requires IsRun(run, steps) && i < |run|
    ensures Inv(run[i], key)
  {
    if i > 0 {
      EveryStateHolds(run, steps, i - 1, key);
      assert Follows(run, steps, i - 1);
      StepKeepsInv(run[i - 1], steps[i - 1], key);
    }
  }

  /** In every interleaving at most one request per key is inside the origin fetch. */
  lemma {:induction false} OneFetchAtATime(run: seq<State>, steps: seq<Step>, i: nat, t: Thread, u: Thread, key: string)
    requires IsRun(run, steps) && i < |run| && Fetches(run[i], t, key) && Fetches(run[i], u, key)
    ensures t == u
  {
    EveryStateHolds(run, steps, i, key);
    OneHolder(run[i], t, u);
  }

  /** Step `i` began a fetch of `key` for a request that would have taken an entry. */
  predicate Fills(run: seq<State>, steps: seq<Step>, i: int, key: string) {
    && 0 <= i < |run| && i < |steps| && steps[i].Fetch? && steps[i].accepts
    && steps[i].t in run[i].lock.phase && KeyOf(run[i], steps[i].t) == key
  }

  /** Step `i` took the entry of `key` away, or ended a fetch of it without storing. */
  predicate Loses(run: seq<State>, steps: seq<Step>, i: int, key: string) {
    && 0 <= i < |run| && i < |steps|
    && (|| (steps[i].Lose? && steps[i].key == key)
        || (steps[i].Finish? && !steps[i].store && steps[i].t in run[i].lock.phase && KeyOf(run[i], steps[i].t) == key))
  }

  function FillsBefore(run: seq<State>, steps: seq<Step>, n: nat, key: string): set<int> {
    set i | 0 <= i < n && Fills(run, steps, i, key)
  }

  function LossesBefore(run: seq<State>, steps: seq<Step>, n: nat, key: string): set<int> {
    set i | 0 <= i < n && Loses(run, steps, i, key)
  }

  lemma {:induction false} OneMore(was: set<int>, more: set<int>, n: int, grows: bool)
    requires n !in was && more == if grows then was + {n} else was
    ensures |more| == |was| + (if grows then 1 else 0)
  {
  }

  lemma {:induction false} FillsStep(run: seq<State>, steps: seq<Step>, n: nat, key: string)
    ensures |FillsBefore(run, steps, n + 1, key)| == |FillsBefore(run, steps, n, key)| + (if Fills(run, steps, n, key) then 1 else 0)
  {
    OneMore(FillsBefore(run, steps, n, key), FillsBefore(run, steps, n + 1, key), n, Fills(run, steps, n, key));
  }

  lemma {:induction false} LossesStep(run: seq<State>, steps: seq<Step>, n: nat, key: string)
    ensures |LossesBefore(run, steps, n + 1, key)| == |LossesBefore(run, steps, n, key)| + (if Loses(run, steps, n, key) then 1 else 0)
  {
    OneMore(LossesBefore(run, steps, n, key), LossesBefore(run, steps, n + 1, key), n, Loses(run, steps, n, key));
  }

  /** The counters say how often it happened. */
  lemma {:induction false} CountersAreTrue(run: seq<State>, steps: seq<Step>, i: nat, key: string)
    requires IsRun(run, steps) && i < |run|
    ensures run[i].filling[key] == |FillsBefore(run, steps, i, key)| && run[i].lost[key] == |LossesBefore(run, steps, i, key)|
  {
    if i > 0 {
      CountersAreTrue(run, steps, i - 1, key);
      FillsStep(run, steps, i - 1, key);
      LossesStep(run, steps, i - 1, key);
      assert Follows(run, steps, i - 1);
    }
  }

  /**
   However many requests arrive for a key, those willing to take an entry fetch at
   most once more often than an entry was lost or a fetch stored nothing.
   */
  lemma {:induction false} FillsArePaidFor(run: seq<State>, steps: seq<Step>, i: nat, key: string)
    requires IsRun(run, steps) && i < |run|
    ensures |FillsBefore(run, steps, i, key)| <= |LossesBefore(run, steps, i, key)| + 1
    ensures !Covered(run[i], key) ==> |FillsBefore(run, steps, i, key)| <= |LossesBefore(run, steps, i, key)|
  {
    EveryStateHolds(run, steps, i, key);
    CountersAreTrue(run, steps, i, key);
  }
}
