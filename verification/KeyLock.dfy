/**
 The per-key fill lock as a protocol. A request registers on its key under the
 table mutex, waits for that key's own mutex, fetches while holding it, unlocks
 it and deregisters under the table mutex. Between these atomic sections any
 other request may run.
 */
module KeyLock {

  type LockId = nat
  type Thread = nat

  /** The table guarded by the table mutex. A lock object keeps its count after it left the table. */
  datatype Table = Table(locks: map<string, LockId>, refs: map<LockId, int>, unused: LockId)

  function Register(tb: Table, key: string): (r: (Table, LockId)) {
    if key in tb.locks then
      var lk := tb.locks[key];
      (tb.(refs := tb.refs[lk := Refs(tb, lk) + 1]), lk)
    else
      (Table(tb.locks[key := tb.unused], tb.refs[tb.unused := 1], tb.unused + 1), tb.unused)
  }

  function Deregister(tb: Table, key: string, lk: LockId): (r: Table) {
    var left := Refs(tb, lk) - 1;
    Table(if left == 0 then tb.locks - {key} else tb.locks, tb.refs[lk := left], tb.unused)
  }

  function Refs(tb: Table, lk: LockId): int {
    if lk in tb.refs then tb.refs[lk] else 0
  }

  class KeyLocker {
    var locks: map<string, LockId>
    var refs: map<LockId, int>
    var unused: LockId

    ghost function View(): Table
      reads this
    {
      Table(locks, refs, unused)
    }

    constructor ()
      ensures View() == Table(map[], map[], 0)
    {
      locks, refs, unused := map[], map[], 0;
    }

    /** First atomic section of `Lock`: find or create the key's lock and count one more user. */
    method Enter(key: string) returns (lk: LockId)
      modifies this
      ensures (View(), lk) == Register(old(View()), key)
    {
      if key in locks {
        lk := locks[key];
      } else {
        lk, unused := unused, unused + 1;
        locks, refs := locks[key := lk], refs[lk := 0];
      }
      refs := refs[lk := (if lk in refs then refs[lk] else 0) + 1];
      assert key !in old(locks) ==> refs == old(refs)[lk := 1];
    }

    /** Last atomic section of the unlock closure: count one user less and drop an unused lock. */
    method Leave(key: string, lk: LockId)
      modifies this
      ensures View() == Deregister(old(View()), key, lk)
    {
      refs := refs[lk := (if lk in refs then refs[lk] else 0) - 1];
      if refs[lk] == 0 {
        locks := locks - {key};
      }
    }
  }

  // ----- the protocol -------------------------------------------------------

  datatype Phase =
    | Waiting(key: string, lock: LockId)    // registered, blocked on the key's mutex
    | Holding(key: string, lock: LockId)    // inside: second lookup and origin fetch
    | Releasing(key: string, lock: LockId)  // mutex released, still registered

  /** Threads outside the protocol have no phase; `owner` says who holds each key mutex. */
  datatype State = State(table: Table, owner: map<LockId, Thread>, phase: map<Thread, Phase>)

  datatype Step = Enter(t: Thread, key: string) | Acquire(t: Thread) | Unlock(t: Thread) | Leave(t: Thread)

  predicate Enabled(s: State, step: Step) {
    match step
    case Enter(t, _) => t !in s.phase
    case Acquire(t) => t in s.phase && s.phase[t].Waiting? && s.phase[t].lock !in s.owner
    case Unlock(t) => t in s.phase && s.phase[t].Holding?
    case Leave(t) => t in s.phase && s.phase[t].Releasing?
  }

  function Apply(s: State, step: Step): State
    requires Enabled(s, step)
  {
    match step
    case Enter(t, key) =>
      var (tb, lk) := Register(s.table, key);
      s.(table := tb, phase := s.phase[t := Waiting(key, lk)])
    case Acquire(t) =>
      var p := s.phase[t];
      s.(owner := s.owner[p.lock := t], phase := s.phase[t := Holding(p.key, p.lock)])
    case Unlock(t) =>
      var p := s.phase[t];
      s.(owner := s.owner - {p.lock}, phase := s.phase[t := Releasing(p.key, p.lock)])
    case Leave(t) =>
      var p := s.phase[t];
      s.(table := Deregister(s.table, p.key, p.lock), phase := s.phase - {t})
  }

  const Initial := State(Table(map[], map[], 0), map[], map[])

  /** Threads registered, holding or releasing on `key`. */
  function Users(s: State, key: string): set<Thread> {
    set t | t in s.phase && s.phase[t].key == key
  }

  ghost predicate Inv(s: State) {
    && SharedLock(s)
    && ExactRefs(s)
    && DistinctLocks(s)
    && OwnersHold(s)
  }

  /** All users of a key refer to the lock object the table has for it. */
  ghost predicate SharedLock(s: State) {
    forall t :: t in s.phase ==> s.phase[t].key in s.table.locks && s.table.locks[s.phase[t].key] == s.phase[t].lock
  }

  /** A lock in the table counts exactly its users, and it has some. */
  ghost predicate ExactRefs(s: State) {
    forall key :: key in s.table.locks ==>
      Refs(s.table, s.table.locks[key]) == |Users(s, key)| && Users(s, key) != {}
  }

  ghost predicate DistinctLocks(s: State) {
    && (forall key :: key in s.table.locks ==> s.table.locks[key] < s.table.unused)
    && (forall k1, k2 :: k1 in s.table.locks && k2 in s.table.locks && s.table.locks[k1] == s.table.locks[k2] ==> k1 == k2)
  }

  /** A thread is inside exactly when it owns its lock's mutex. */
  ghost predicate OwnersHold(s: State) {
    && (forall lk :: lk in s.owner ==>
          s.owner[lk] in s.phase && s.phase[s.owner[lk]].Holding? && s.phase[s.owner[lk]].lock == lk)
    && (forall t :: t in s.phase && s.phase[t].Holding? ==>
          s.phase[t].lock in s.owner && s.owner[s.phase[t].lock] == t)
  }

  lemma {:induction false} UsersAfterEnter(s: State, t: Thread, key: string, k: string)
    requires t !in s.phase
    ensures Users(Apply(s, Enter(t, key)), k) == if k == key then Users(s, k) + {t} else Users(s, k)
  {
  }

  lemma {:induction false} NobodyUsesAbsentKey(s: State, key: string)
    requires SharedLock(s) && key !in s.table.locks
    ensures Users(s, key) == {}
  {
  }

  lemma {:induction false} EnterKeepsRefs(s: State, t: Thread, key: string)
    requires Inv(s) && t !in s.phase
    ensures ExactRefs(Apply(s, Enter(t, key)))
  {
    var s' := Apply(s, Enter(t, key));
    if key !in s.table.locks {
      NobodyUsesAbsentKey(s, key);
    }
    forall k | k in s'.table.locks
      ensures Refs(s'.table, s'.table.locks[k]) == |Users(s', k)| && Users(s', k) != {}
    {
      UsersAfterEnter(s, t, key, k);
    }
  }

  /** A registered thread that changes phase on its own lock changes nobody's registration. */
  lemma {:induction false} MoveKeepsTable(s: State, t: Thread, p: Phase, owner: map<LockId, Thread>)
    requires SharedLock(s) && ExactRefs(s)
    requires t in s.phase && p.key == s.phase[t].key && p.lock == s.phase[t].lock
    ensures SharedLock(State(s.table, owner, s.phase[t := p]))
    ensures ExactRefs(State(s.table, owner, s.phase[t := p]))
  {
    var s' := State(s.table, owner, s.phase[t := p]);
    forall key ensures Users(s', key) == Users(s, key) {
    }
  }

  lemma {:induction false} LeaveKeepsRefs(s: State, t: Thread)
    requires Inv(s) && Enabled(s, Leave(t))
    ensures ExactRefs(Apply(s, Leave(t)))
    ensures s.phase[t].key in Apply(s, Leave(t)).table.locks <==> Users(s, s.phase[t].key) != {t}
  {
    var s', p := Apply(s, Leave(t)), s.phase[t];
    assert t in Users(s, p.key);
    assert Users(s', p.key) == Users(s, p.key) - {t};
    forall k | k in s'.table.locks
      ensures Refs(s'.table, s'.table.locks[k]) == |Users(s', k)| && Users(s', k) != {}
    {
      if k != p.key {
        assert Users(s', k) == Users(s, k);
      }
    }
    if Users(s, p.key) != {t} {
      var u :| u in Users(s, p.key) && u != t;
      assert u in Users(s', p.key);
    }
  }

  /** Nobody is left behind with a lock object that is no longer in the table. */
  lemma {:induction false} LeaveKeepsSharing(s: State, t: Thread)
    requires Inv(s) && Enabled(s, Leave(t))
    ensures SharedLock(Apply(s, Leave(t)))
  {
    var s', p := Apply(s, Leave(t)), s.phase[t];
    forall u | u in s'.phase
      ensures s'.phase[u].key in s'.table.locks && s'.table.locks[s'.phase[u].key] == s'.phase[u].lock
    {
      if s.phase[u].key == p.key {
        assert {t, u} <= Users(s, p.key);
        assert Users(s, p.key) != {t};
        LeaveKeepsRefs(s, t);
      }
    }
  }

  lemma {:induction false} EnterKeepsInv(s: State, t: Thread, key: string)
    requires Inv(s) && t !in s.phase
    ensures Inv(Apply(s, Enter(t, key)))
  {
    EnterKeepsRefs(s, t, key);
    EnterKeepsSharing(s, t, key);
    EnterKeepsOwners(s, t, key);
  }

  lemma {:induction false} EnterKeepsSharing(s: State, t: Thread, key: string)
    requires Inv(s) && t !in s.phase
    ensures SharedLock(Apply(s, Enter(t, key))) && DistinctLocks(Apply(s, Enter(t, key)))
  {
  }

  lemma {:induction false} EnterKeepsOwners(s: State, t: Thread, key: string)
    requires OwnersHold(s) && t !in s.phase
    ensures OwnersHold(Apply(s, Enter(t, key)))
  {
  }

  lemma {:induction false} AcquireKeepsOwners(s: State, t: Thread)
    requires OwnersHold(s) && Enabled(s, Acquire(t))
    ensures OwnersHold(Apply(s, Acquire(t)))
  {
  }

  lemma {:induction false} AcquireKeepsInv(s: State, t: Thread)
    requires Inv(s) && Enabled(s, Acquire(t))
    ensures Inv(Apply(s, Acquire(t)))
  {
    var s' := Apply(s, Acquire(t));
    AcquireKeepsOwners(s, t);
    MoveKeepsTable(s, t, s'.phase[t], s'.owner);
  }

  lemma {:induction false} UnlockKeepsOwners(s: State, t: Thread)
    requires OwnersHold(s) && Enabled(s, Unlock(t))
    ensures OwnersHold(Apply(s, Unlock(t)))
  {
  }

  lemma {:induction false} UnlockKeepsInv(s: State, t: Thread)
    requires Inv(s) && Enabled(s, Unlock(t))
    ensures Inv(Apply(s, Unlock(t)))
  {
    var s' := Apply(s, Unlock(t));
    UnlockKeepsOwners(s, t);
    MoveKeepsTable(s, t, s'.phase[t], s'.owner);
  }

  lemma {:induction false} LeaveKeepsInv(s: State, t: Thread)
    requires Inv(s) && Enabled(s, Leave(t))
    ensures Inv(Apply(s, Leave(t)))
  {
    LeaveKeepsRefs(s, t);
    LeaveKeepsSharing(s, t);
  }

  lemma {:induction false} StepKeepsInv(s: State, step: Step)
    requires Inv(s) && Enabled(s, step)
    ensures Inv(Apply(s, step))
  {
    match step
    case Enter(t, key) => EnterKeepsInv(s, t, key);
    case Acquire(t) => AcquireKeepsInv(s, t);
    case Unlock(t) => UnlockKeepsInv(s, t);
    case Leave(t) => LeaveKeepsInv(s, t);
  }

  // ----- runs ---------------------------------------------------------------

  ghost predicate IsRun(run: seq<State>, steps: seq<Step>) {
    && |run| == |steps| + 1 && run[0] == Initial
    && forall i :: 0 <= i < |steps| ==> Follows(run, steps, i)
  }

  predicate Follows(run: seq<State>, steps: seq<Step>, i: int)
    requires |run| == |steps| + 1
  {
    0 <= i < |steps| && Enabled(run[i], steps[i]) && run[i + 1] == Apply(run[i], steps[i])
  }

  lemma {:induction false} EveryStateHolds(run: seq<State>, steps: seq<Step>, i: nat)
    requires IsRun(run, steps) && i < |run|
    ensures Inv(run[i])
  {
    if i > 0 {
      var before, step := run[i - 1], steps[i - 1];
      EveryStateHolds(run, steps, i - 1);
      assert Follows(run, steps, i - 1);
      StepKeepsInv(before, step);
    }
  }

  /** In every interleaving at most one thread per key is between lock and unlock. */
  lemma {:induction false} MutualExclusion(run: seq<State>, steps: seq<Step>, i: nat, t: Thread, u: Thread)
    requires IsRun(run, steps) && i < |run|
    requires t in run[i].phase && run[i].phase[t].Holding?
    requires u in run[i].phase && run[i].phase[u].Holding?
    requires run[i].phase[t].key == run[i].phase[u].key
    ensures t == u
  {
    EveryStateHolds(run, steps, i);
  }

  /** A key has an entry exactly while somebody uses it, and the entry counts exactly those users. */
  lemma {:induction false} NoLeakNoEarlyDelete(run: seq<State>, steps: seq<Step>, i: nat, key: string)
    requires IsRun(run, steps) && i < |run|
    ensures key in run[i].table.locks <==> Users(run[i], key) != {}
    ensures key in run[i].table.locks ==> Refs(run[i].table, run[i].table.locks[key]) == |Users(run[i], key)|
    ensures forall t :: t in Users(run[i], key) ==>
              key in run[i].table.locks && run[i].phase[t].lock == run[i].table.locks[key]
  {
    EveryStateHolds(run, steps, i);
    if t :| t in Users(run[i], key) {
      assert run[i].phase[t].key in run[i].table.locks;
    }
  }

  /** No interleaving gets stuck: while any thread is inside, some thread inside can move. */
  lemma {:induction false} NeverStuck(run: seq<State>, steps: seq<Step>, i: nat, t: Thread) returns (step: Step)
    requires IsRun(run, steps) && i < |run| && t in run[i].phase
    ensures Enabled(run[i], step) && !step.Enter?
  {
    EveryStateHolds(run, steps, i);
    var s := run[i];
    match s.phase[t]
    case Waiting(_, lk) =>
      if lk in s.owner {
        step := Unlock(s.owner[lk]);
      } else {
        step := Acquire(t);
      }
    case Holding(_, _) => step := Unlock(t);
    case Releasing(_, _) => step := Leave(t);
  }
}
