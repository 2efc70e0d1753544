/**
 Invalidation after an unsafe request beside cache fills. The purge takes the cache's
 own lock and not the fill lock of the key, so a fetch that read the old representation
 may store it after the purge. `CacheFill` is the machine underneath; here each
 representation has a version.
 */
module Invalidation {
  import CacheFill
  import KeyLock

  type Thread = KeyLock.Thread

  /** `version` is what the origin has, `seen` what a fetch has read so far, `held` what the cache holds. */
  datatype State = State(fill: CacheFill.State, version: map<string, nat>, seen: map<Thread, nat>, held: map<string, nat>)

  datatype Step =
    | Fill(step: CacheFill.Step)
    | Read(t: Thread)
    | Write(key: string)
    | Purge(key: string)

  const Initial := State(CacheFill.Initial, map[], map[], map[])

  function VersionOf(s: State, key: string): nat {
    if key in s.version then s.version[key] else 0
  }

  /** A response is stored only after the origin has answered. */
  predicate Enabled(s: State, step: Step) {
    match step
    case Fill(f) => CacheFill.Enabled(s.fill, f) && (f.Finish? && f.store ==> f.t in s.seen)
    case Read(t) => t in s.fill.fetching && t in s.fill.lock.phase
    case Write(_) => true
    case Purge(_) => true
  }

  function DoFill(s: State, f: CacheFill.Step): State
    requires Enabled(s, Fill(f))
  {
    var t := s.(fill := CacheFill.Do(s.fill, f));
    match f
    case Lock(_) => t
    case Fetch(x, _) => t.(seen := s.seen - {x})
    case Finish(x, store) =>
      t.(seen := s.seen - {x}, held := if store then s.held[CacheFill.KeyOf(s.fill, x) := s.seen[x]] else s.held)
    case Lose(key) => t.(held := s.held - {key})
  }

  function Do(s: State, step: Step): State
    requires Enabled(s, step)
  {
    match step
    case Fill(f) => DoFill(s, f)
    case Read(t) => s.(seen := s.seen[t := VersionOf(s, CacheFill.KeyOf(s.fill, t))])
    case Write(key) => s.(version := s.version[key := VersionOf(s, key) + 1])
    case Purge(key) => if key in s.fill.stored then DoFill(s, CacheFill.Lose(key)) else s
  }

  ghost predicate Inv(s: State) {
    && KeyLock.Inv(s.fill.lock) && CacheFill.FetchersHold(s.fill)
    && s.held.Keys == s.fill.stored && s.seen.Keys <= s.fill.fetching
    && forall t :: t in s.seen ==> NotAhead(s, t)
  }

  /** Nothing is read before it is written. */
  predicate NotAhead(s: State, t: Thread) {
    t in s.seen && t in s.fill.lock.phase ==> s.seen[t] <= VersionOf(s, s.fill.lock.phase[t].key)
  }

  /** A request inside its fetch stays on its key, whatever the step. */
  lemma {:induction false} FetcherStays(f: CacheFill.State, step: CacheFill.Step, t: Thread)
    requires CacheFill.Enabled(f, step) && t in f.fetching && CacheFill.Holds(f, t)
    ensures CacheFill.Holds(CacheFill.Do(f, step), t) && CacheFill.KeyOf(CacheFill.Do(f, step), t) == CacheFill.KeyOf(f, t)
  {
  }

  lemma {:induction false} FillKeepsLocks(f: CacheFill.State, step: CacheFill.Step)
    requires KeyLock.Inv(f.lock) && CacheFill.FetchersHold(f) && CacheFill.Enabled(f, step)
    ensures KeyLock.Inv(CacheFill.Do(f, step).lock) && CacheFill.FetchersHold(CacheFill.Do(f, step))
  {
    if step.Lock? {
      KeyLock.StepKeepsInv(f.lock, step.step);
    }
    forall t | t in CacheFill.Do(f, step).fetching ensures CacheFill.Holds(CacheFill.Do(f, step), t) {
      if t in f.fetching {
        FetcherStays(f, step, t);
      }
    }
  }

  /** What a fetch has seen after a step: what it had seen, or the origin's current version. */
  lemma {:induction false} SeenAfter(s: State, step: Step, t: Thread)
    requires Inv(s) && Enabled(s, step) && t in Do(s, step).seen
    ensures t in s.fill.fetching && CacheFill.Holds(s.fill, t) && CacheFill.Holds(Do(s, step).fill, t)
    ensures CacheFill.KeyOf(Do(s, step).fill, t) == CacheFill.KeyOf(s.fill, t)
    ensures Do(s, step).seen[t] == if step == Read(t) then VersionOf(s, CacheFill.KeyOf(s.fill, t)) else s.seen[t]
    ensures step != Read(t) ==> t in s.seen
  {
    assert t in s.fill.fetching && CacheFill.Holds(s.fill, t);
    if step.Fill? {
      FetcherStays(s.fill, step.step, t);
    } else if step.Purge? && step.key in s.fill.stored {
      FetcherStays(s.fill, CacheFill.Lose(step.key), t);
    }
  }

  lemma {:induction false} VersionsGrow(s: State, step: Step, key: string)
    requires Enabled(s, step)
    ensures VersionOf(Do(s, step), key) == VersionOf(s, key) + (if step == Write(key) then 1 else 0)
  {
  }

  lemma {:induction false} StepKeepsHeld(s: State, step: Step)
    requires Enabled(s, step) && s.held.Keys == s.fill.stored && s.seen.Keys <= s.fill.fetching
    ensures Do(s, step).held.Keys == Do(s, step).fill.stored && Do(s, step).seen.Keys <= Do(s, step).fill.fetching
  {
  }

  lemma {:induction false} StepKeepsInv(s: State, step: Step)
    requires Inv(s) && Enabled(s, step)
    ensures Inv(Do(s, step))
  {
    if step.Fill? {
      FillKeepsLocks(s.fill, step.step);
    } else if step.Purge? && step.key in s.fill.stored {
      FillKeepsLocks(s.fill, CacheFill.Lose(step.key));
    }
    StepKeepsHeld(s, step);
    forall t | t in Do(s, step).seen ensures NotAhead(Do(s, step), t) {
      SeenAfter(s, step, t);
      VersionsGrow(s, step, CacheFill.KeyOf(s.fill, t));
      assert t in s.seen ==> NotAhead(s, t);
    }
  }

  /** The cache holds a representation that is no longer the origin's. */
  predicate Stale(s: State, key: string) {
    key in s.held && s.held[key] < VersionOf(s, key)
  }

  /** A fetch of the key has read a representation that is no longer the origin's. */
  predicate Tainted(s: State, t: Thread, key: string) {
    CacheFill.Fetches(s.fill, t, key) && t in s.seen && s.seen[t] < VersionOf(s, key)
  }

  ghost predicate Clean(s: State, key: string) {
    !Stale(s, key) && forall t :: !Tainted(s, t, key)
  }

  /** What the cache holds after a step: what it held, or what the finished fetch had seen. */
  lemma {:induction false} HeldAfter(s: State, step: Step, key: string)
    requires Enabled(s, step) && key in Do(s, step).held
    ensures (key in s.held && Do(s, step).held[key] == s.held[key])
            || (step.Fill? && step.step.Finish? && CacheFill.Fetches(s.fill, step.step.t, key)
                && step.step.t in s.seen && Do(s, step).held[key] == s.seen[step.step.t])
  {
  }

  /** Nothing but a write makes a clean key unclean. */
  lemma {:induction false} CleanStays(s: State, step: Step, key: string)
    requires Inv(s) && Enabled(s, step) && Clean(s, key) && step != Write(key)
    ensures Clean(Do(s, step), key)
  {
    VersionsGrow(s, step, key);
    forall t ensures !Tainted(Do(s, step), t, key) {
      if t in Do(s, step).seen {
        SeenAfter(s, step, t);
        assert !Tainted(s, t, key);
      }
    }
    if key in Do(s, step).held {
      HeldAfter(s, step, key);
      if step.Fill? && step.step.Finish? {
        assert !Tainted(s, step.step.t, key);
      }
    }
  }

  predicate Follows(run: seq<State>, steps: seq<Step>, i: int)
    requires |run| == |steps| + 1
  {
    0 <= i < |steps| && Enabled(run[i], steps[i]) && run[i + 1] == Do(run[i], steps[i])
  }

  /** A continuation from `s` in which the origin's representation of `key` does not change again. */
  ghost predicate Continues(s: State, key: string, run: seq<State>, steps: seq<Step>) {
    && |run| == |steps| + 1 && run[0] == s
    && forall i :: 0 <= i < |steps| ==> Follows(run, steps, i) && steps[i] != Write(key)
  }

  lemma {:induction false} CleanForGood(s: State, key: string, run: seq<State>, steps: seq<Step>, i: nat)
    requires Inv(s) && Clean(s, key) && Continues(s, key, run, steps) && i < |run|
    ensures Inv(run[i]) && Clean(run[i], key)
  {
    if i > 0 {
      CleanForGood(s, key, run, steps, i - 1);
      assert Follows(run, steps, i - 1) && steps[i - 1] != Write(key);
      StepKeepsInv(run[i - 1], steps[i - 1]);
      CleanStays(run[i - 1], steps[i - 1], key);
    }
  }

  /** Whatever happens from `s` on, the cache never serves an old representation of `key` until the next write. */
  ghost predicate Sticks(s: State, key: string) {
    forall run, steps :: Continues(s, key, run, steps) ==> !Stale(run[|steps|], key)
  }

  /** One step is enough to bring a tainted representation into the cache. */
  lemma {:induction false} TaintedStores(s: State, t: Thread, key: string)
    requires Inv(s) && Tainted(s, t, key)
    ensures !Sticks(s, key)
  {
    var step := Fill(CacheFill.Finish(t, true));
    assert CacheFill.Holds(s.fill, t);
    var run, steps := [s, Do(s, step)], [step];
    assert Follows(run, steps, 0);
    assert Continues(s, key, run, steps) && Stale(run[|steps|], key);
  }

  /**
   A purge has a lasting effect exactly when, at that moment, no fetch of the key has
   already read an older representation.
   */
  lemma {:induction false} PurgeSticksIff(s: State, key: string)
    requires Inv(s) && key !in s.held
    ensures Sticks(s, key) <==> forall t :: !Tainted(s, t, key)
  {
    if t :| Tainted(s, t, key) {
      TaintedStores(s, t, key);
    } else {
      forall run, steps | Continues(s, key, run, steps) ensures !Stale(run[|steps|], key) {
        CleanForGood(s, key, run, steps, |steps|);
      }
    }
  }

  /** Only one request can be to blame, since fetches of a key exclude each other. */
  lemma {:induction false} AtMostOneTainted(s: State, t: Thread, u: Thread, key: string)
    requires Inv(s) && Tainted(s, t, key) && Tainted(s, u, key)
    ensures t == u
  {
    assert CacheFill.Holds(s.fill, t) && CacheFill.Holds(s.fill, u);
    CacheFill.OneHolder(s.fill, t, u);
  }

  /**
   An unsafe request whose purge follows at once: it sticks exactly when no fetch of the
   key had an answer from the origin before the write.
   */
  lemma {:induction false} UnsafeRequestSticksIff(s: State, key: string)
    requires Inv(s)
    ensures Sticks(Do(Do(s, Write(key)), Purge(key)), key)
            <==> forall t :: !(CacheFill.Fetches(s.fill, t, key) && t in s.seen)
  {
    var w := Do(s, Write(key));
    var p := Do(w, Purge(key));
    StepKeepsInv(s, Write(key));
    StepKeepsInv(w, Purge(key));
    PurgeSticksIff(p, key);
    forall t ensures Tainted(p, t, key) <==> CacheFill.Fetches(s.fill, t, key) && t in s.seen {
      assert t in s.seen ==> NotAhead(s, t);
    }
  }

  /** It happens: a request that fetched before the write stores after the purge. */
  lemma {:induction false} OldRepresentationReturns(key: string) returns (run: seq<State>, steps: seq<Step>)
    ensures |run| == |steps| + 1 && |steps| > 2 && run[0] == Initial && (forall i :: 0 <= i < |steps| ==> Follows(run, steps, i))
    ensures steps[|steps| - 2] == Purge(key) && steps[|steps| - 3] == Write(key) && Stale(run[|steps|], key)
  {
    var lockIn, lockOn := Fill(CacheFill.Lock(KeyLock.Enter(0, key))), Fill(CacheFill.Lock(KeyLock.Acquire(0)));
    var fetch, finish := Fill(CacheFill.Fetch(0, true)), Fill(CacheFill.Finish(0, true));
    var s1 := Do(Initial, lockIn);
    var s2 := Do(s1, lockOn);
    var s3 := Do(s2, fetch);
    var s4 := Do(s3, Read(0));
    var s5 := Do(s4, Write(key));
    var s6 := Do(s5, Purge(key));
    var s7 := Do(s6, finish);
    run, steps := [Initial, s1, s2, s3, s4, s5, s6, s7], [lockIn, lockOn, fetch, Read(0), Write(key), Purge(key), finish];
  }

  /** The invariant holds in every run. */
  lemma {:induction false} EveryStateHolds(run: seq<State>, steps: seq<Step>, i: nat)
    requires |run| == |steps| + 1 && run[0] == Initial && i < |run|
    requires forall k :: 0 <= k < |steps| ==> Follows(run, steps, k)
    ensures Inv(run[i])
  {
    if i > 0 {
      EveryStateHolds(run, steps, i - 1);
      assert Follows(run, steps, i - 1);
      StepKeepsInv(run[i - 1], steps[i - 1]);
    }
  }
}
