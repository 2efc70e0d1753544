/**
 The managed server: the transaction thread of the control manager and the
 generation loop, interleaved at every point where the source releases a lock or
 touches the restart channel. Transactions exclude each other, so there is one
 transaction thread; the loop is the only receiver.
 */
module Generations {
  import opened Text
  import opened Control

  /** One configuration change: the file before, the file saved, the runtime configuration loaded from it. */
  datatype Change = Change(base: Config, file: Config, next: Config)

  /** What a transaction read before it decided how to apply: the running configuration and the attached generation. */
  datatype Sight = Sight(current: Config, gen: nat, attached: bool)

  datatype Tx =
    | Idle
    | Loaded(change: Change)
    | Seen(change: Change, sight: Sight)
    | Counted(change: Change, sight: Sight, rev: nat)
    | Reloaded(change: Change, sight: Sight, rev: nat)
    | Offering(next: Config)
    | Clearing(next: Config)
    | Sending(next: Config)

  datatype Phase =
    | Starting(cfg: Config, fallback: bool)
    | Serving(started: Config)
    | Draining(next: Config)
    | Stopped

  /**
   `goal` is the newest restart candidate accepted (or the configuration last
   rolled back to); `fileRuntime` and `healthyRuntime` are the runtime
   configurations that were loaded together with `persisted` and `healthy`.
   */
  datatype System = System(
    m: State, tx: Tx, phase: Phase, gen: nat, goal: Config, fileRuntime: Config, healthyRuntime: Config)

  datatype Step =
    | Open(file: Config, next: Config)
    | OpenFails(saved: bool)
    | Look
    | Count
    | Preflight(ok: bool)
    | TrySend
    | Clear
    | Send
    | Reload(ok: bool)
    | Commit
    | Start(ok: bool)
    | Take
    | TakeNewer
    | FinishDrain
    | Exit

  function Initial(path: string, file: Config, runtime: Config): System {
    System(State(map[path := file], path, file, runtime, None, path, file, None, 1, 1, false),
           Idle, Starting(runtime, false), 0, runtime, runtime, runtime)
  }

  predicate Restarts(sys: System) {
    sys.tx.Counted? && RestartFields(sys.tx.sight.current, sys.tx.change.next) != []
  }

  /** The loop waits for the transaction lock before it rolls back; a send waits for an empty slot. */
  predicate Enabled(sys: System, step: Step) {
    match step
    case Open(_, _) => sys.tx.Idle?
    case OpenFails(_) => sys.tx.Idle?
    case Look => sys.tx.Loaded?
    case Count => sys.tx.Seen?
    case Preflight(_) => Restarts(sys)
    case TrySend => sys.tx.Offering?
    case Clear => sys.tx.Clearing?
    case Send => sys.tx.Sending? && sys.m.slot.None?
    case Reload(_) => sys.tx.Counted? && !Restarts(sys)
    case Commit => sys.tx.Reloaded?
    case Start(ok) => sys.phase.Starting? && (ok || !sys.phase.fallback || sys.tx.Idle?)
    case Take => sys.phase.Serving? && sys.m.slot.Some?
    case TakeNewer => sys.phase.Draining? && sys.m.slot.Some?
    case FinishDrain => sys.phase.Draining? && sys.m.slot.None?
    case Exit => sys.phase.Serving? || sys.phase.Draining?
  }

  function WriteFile(m: State, c: Config): State {
    m.(disk := m.disk[m.path := c])
  }

  /** The transaction gives up and restores the file. */
  function Rollback(sys: System): System
    requires sys.tx.Counted?
  {
    sys.(m := WriteFile(sys.m, sys.tx.change.base), tx := Idle)
  }

  function Accept(sys: System): System
    requires sys.tx.Counted?
  {
    var c := sys.tx.change;
    sys.(m := sys.m.(persisted := c.file, scheduled := true), tx := Offering(c.next), goal := c.next, fileRuntime := c.next)
  }

  /** Reloading reaches the data plane that was attached when the transaction looked. */
  function Rebuild(sys: System): System
    requires sys.tx.Counted?
  {
    var t := sys.tx;
    sys.(m := if t.sight.gen == sys.gen then sys.m.(handler := Some(t.change.next)) else sys.m,
         tx := Reloaded(t.change, t.sight, t.rev))
  }

  function Publish(sys: System): System
    requires sys.tx.Reloaded?
  {
    var c := sys.tx.change;
    sys.(m := sys.m.(current := c.next, persisted := c.file, healthyPath := sys.m.path, healthy := c.file,
                     applied := sys.tx.rev, scheduled := false),
         tx := Idle, fileRuntime := c.next, healthyRuntime := c.next)
  }

  function Attached(sys: System): System
    requires sys.phase.Starting?
  {
    var c := sys.phase.cfg;
    sys.(m := sys.m.(handler := Some(c), current := c, healthyPath := sys.m.path, healthy := sys.m.persisted,
                     scheduled := false, applied := sys.m.revision),
         phase := Serving(c), gen := sys.gen + 1, healthyRuntime := sys.fileRuntime)
  }

  function Recovered(sys: System): System {
    var m := sys.m;
    sys.(m := m.(disk := m.disk[m.healthyPath := m.healthy], path := m.healthyPath, persisted := m.healthy,
                 scheduled := false, slot := None),
         phase := Starting(m.current, false), goal := m.current, fileRuntime := sys.healthyRuntime)
  }

  predicate Recovers(sys: System, step: Step) {
    step == Start(false) && sys.phase.Starting? && sys.phase.fallback && Trim(sys.m.healthyPath) != ""
  }

  function Do(sys: System, step: Step): System
    requires Enabled(sys, step)
  {
    match step
    case Open(file, next) => sys.(m := WriteFile(sys.m, file), tx := Loaded(Change(sys.m.persisted, file, next)))
    case OpenFails(saved) => if saved then sys.(m := WriteFile(sys.m, sys.m.persisted)) else sys
    case Look => sys.(tx := Seen(sys.tx.change, Sight(sys.m.current, sys.gen, sys.m.handler.Some?)))
    case Count =>
      sys.(m := sys.m.(revision := sys.m.revision + 1), tx := Counted(sys.tx.change, sys.tx.sight, sys.m.revision + 1))
    case Preflight(ok) => if ok then Accept(sys) else Rollback(sys)
    case TrySend =>
      if sys.m.slot.None? then sys.(m := sys.m.(slot := Some(sys.tx.next)), tx := Idle) else sys.(tx := Clearing(sys.tx.next))
    case Clear => sys.(m := sys.m.(slot := None), tx := Sending(sys.tx.next))
    case Send => sys.(m := sys.m.(slot := Some(sys.tx.next)), tx := Idle)
    case Reload(ok) => if ok && sys.tx.sight.attached then Rebuild(sys) else Rollback(sys)
    case Commit => Publish(sys)
    case Start(ok) =>
      if ok then Attached(sys) else if Recovers(sys, step) then Recovered(sys) else sys.(phase := Stopped)
    case Take => sys.(m := sys.m.(slot := None), phase := Draining(sys.m.slot.value))
    case TakeNewer => sys.(m := sys.m.(slot := None), phase := Draining(sys.m.slot.value))
    case FinishDrain => sys.(phase := Starting(sys.phase.next, true))
    case Exit => sys.(phase := Stopped)
  }

  // ---- Every interleaving ----

  predicate Publishing(tx: Tx) {
    tx.Offering? || tx.Clearing? || tx.Sending?
  }

  predicate Changing(tx: Tx) {
    !tx.Idle? && !Publishing(tx)
  }

  /** A restart candidate is on its way to the loop. */
  predicate Pending(sys: System) {
    Publishing(sys.tx) || sys.m.slot.Some?
  }

  /** Where the newest candidate is: with the sender, in the slot, with the loop, or running. */
  function Latest(sys: System): Config {
    if Publishing(sys.tx) then sys.tx.next
    else if sys.m.slot.Some? then sys.m.slot.value
    else
      match sys.phase
      case Starting(c, _) => c
      case Serving(c) => c
      case Draining(c) => c
      case Stopped => sys.goal
  }

  predicate FileHolds(sys: System) {
    && sys.m.path in sys.m.disk
    && (if Changing(sys.tx) then sys.m.disk[sys.m.path] == sys.tx.change.file && sys.tx.change.base == sys.m.persisted
        else sys.m.disk[sys.m.path] == sys.m.persisted)
  }

  predicate Inv(sys: System) {
    && sys.m.applied <= sys.m.revision
    && (sys.tx.Counted? || sys.tx.Reloaded? ==> sys.tx.rev == sys.m.revision)
    && (sys.tx.Sending? ==> sys.m.slot.None?)
    && FileHolds(sys)
    && (!sys.phase.Stopped? ==> Latest(sys) == sys.goal)
  }

  predicate IsLoopStep(step: Step) {
    step.Start? || step.Take? || step.TakeNewer? || step.FinishDrain? || step.Exit?
  }

  lemma {:induction false} TransactionKeepsInv(sys: System, step: Step)
    requires Inv(sys) && Enabled(sys, step) && !IsLoopStep(step)
    ensures Inv(Do(sys, step))
  {
  }

  lemma {:induction false} LoopKeepsInv(sys: System, step: Step)
    requires Inv(sys) && Enabled(sys, step) && IsLoopStep(step)
    ensures Inv(Do(sys, step))
  {
  }

  lemma {:induction false} StepKeepsInv(sys: System, step: Step)
    requires Inv(sys) && Enabled(sys, step)
    ensures Inv(Do(sys, step))
  {
    if IsLoopStep(step) {
      LoopKeepsInv(sys, step);
    } else {
      TransactionKeepsInv(sys, step);
    }
  }

  /** A run: `run[i + 1]` comes from `run[i]` by `steps[i]`. */
  predicate Follows(run: seq<System>, steps: seq<Step>, i: int)
    requires |run| == |steps| + 1
  {
    0 <= i < |steps| && Enabled(run[i], steps[i]) && run[i + 1] == Do(run[i], steps[i])
  }

  ghost predicate IsRun(run: seq<System>, steps: seq<Step>) {
    && |run| == |steps| + 1
    && (exists path, file, runtime :: run[0] == Initial(path, file, runtime))
    && forall i :: 0 <= i < |steps| ==> Follows(run, steps, i)
  }

  lemma {:induction false} EveryStateHolds(run: seq<System>, steps: seq<Step>, i: nat)
    requires IsRun(run, steps) && i < |run|
    ensures Inv(run[i])
  {
    if i > 0 {
      EveryStateHolds(run, steps, i - 1);
      assert Follows(run, steps, i - 1);
      StepKeepsInv(run[i - 1], steps[i - 1]);
    }
  }

  /** What an operator may rely on in every state of every run. */
  lemma {:induction false} SafeInEveryState(run: seq<System>, steps: seq<Step>, i: nat)
    requires IsRun(run, steps) && i < |run|
    ensures run[i].m.applied <= run[i].m.revision
    ensures run[i].tx.Idle? ==> run[i].m.path in run[i].m.disk && run[i].m.disk[run[i].m.path] == run[i].m.persisted
    ensures run[i].phase.Serving? && !Pending(run[i]) ==> run[i].phase.started == run[i].goal
  {
    EveryStateHolds(run, steps, i);
  }

  /** Before `i` no restart candidate was accepted after the one at `a`. */
  ghost predicate LastAcceptance(run: seq<System>, steps: seq<Step>, a: nat, i: nat)
    requires |run| == |steps| + 1
  {
    a < i <= |steps| && steps[a] == Preflight(true) && run[a].tx.Counted?
    && forall k :: a < k < i ==> steps[k] != Preflight(true)
  }

  /** The last rollback before `i` is the one at `r`. */
  ghost predicate LastRollback(run: seq<System>, steps: seq<Step>, r: nat, i: nat)
    requires |run| == |steps| + 1 && i <= |steps|
  {
    r < i && Recovers(run[r], steps[r]) && forall k :: r < k < i ==> !Recovers(run[k], steps[k])
  }

  lemma {:induction false} GoalStep(sys: System, step: Step)
    requires Enabled(sys, step)
    ensures Do(sys, step).goal
         == if step == Preflight(true) then sys.tx.change.next else if Recovers(sys, step) then sys.m.current else sys.goal
  {
  }

  lemma {:induction false} GoalWithoutRollback(run: seq<System>, steps: seq<Step>, a: nat, i: nat)
    requires IsRun(run, steps) && LastAcceptance(run, steps, a, i)
    requires forall k :: a < k < i ==> !Recovers(run[k], steps[k])
    ensures run[i].goal == run[a].tx.change.next
  {
    assert Follows(run, steps, i - 1);
    GoalStep(run[i - 1], steps[i - 1]);
    if i > a + 1 {
      assert LastAcceptance(run, steps, a, i - 1);
      GoalWithoutRollback(run, steps, a, i - 1);
    }
  }

  lemma {:induction false} GoalAfterRollback(run: seq<System>, steps: seq<Step>, r: nat, i: nat)
    requires IsRun(run, steps) && i <= |steps| && LastRollback(run, steps, r, i)
    requires forall k :: r < k < i ==> steps[k] != Preflight(true)
    ensures run[i].goal == run[r].m.current
  {
    assert Follows(run, steps, i - 1);
    GoalStep(run[i - 1], steps[i - 1]);
    if i > r + 1 {
      assert LastRollback(run, steps, r, i - 1);
      GoalAfterRollback(run, steps, r, i - 1);
    }
  }

  /** Between `a` and `i` either nothing was rolled back or there was a last rollback. */
  lemma {:induction false} FindRollback(run: seq<System>, steps: seq<Step>, a: nat, i: nat) returns (r: nat)
    requires |run| == |steps| + 1 && a < i <= |steps|
    ensures r == a || (a < r && LastRollback(run, steps, r, i))
    ensures r == a ==> forall k :: a < k < i ==> !Recovers(run[k], steps[k])
  {
    r := i - 1;
    if r > a && !Recovers(run[r], steps[r]) {
      r := FindRollback(run, steps, a, i - 1);
    }
  }

  /**
   What serves once nothing is pending: the last restart candidate accepted, if and only
   if no rollback followed its acceptance or the last one went back to that very
   configuration. Otherwise it is the configuration rolled back to, and the candidate is
   gone although its update was answered with success.
   */
  lemma {:induction false} NewestCandidateServesIff(run: seq<System>, steps: seq<Step>, a: nat, i: nat)
    requires IsRun(run, steps) && LastAcceptance(run, steps, a, i)
    requires run[i].phase.Serving? && !Pending(run[i])
    ensures run[i].phase.started == run[a].tx.change.next
            <==> forall r :: a < r < i && LastRollback(run, steps, r, i) ==> run[r].m.current == run[a].tx.change.next
    ensures forall r :: a < r < i && LastRollback(run, steps, r, i) ==> run[i].phase.started == run[r].m.current
  {
    EveryStateHolds(run, steps, i);
    forall r | a < r < i && LastRollback(run, steps, r, i) ensures run[i].phase.started == run[r].m.current {
      GoalAfterRollback(run, steps, r, i);
    }
    var last := FindRollback(run, steps, a, i);
    if last == a {
      GoalWithoutRollback(run, steps, a, i);
    }
  }

  function NextOf(tx: Tx): Step
    requires !tx.Idle?
  {
    match tx
    case Loaded(_) => Look
    case Seen(_, _) => Count
    case Counted(c, s, _) => if RestartFields(s.current, c.next) != [] then Preflight(true) else Reload(true)
    case Reloaded(_, _, _) => Commit
    case Offering(_) => TrySend
    case Clearing(_) => Clear
    case Sending(_) => Send
  }

  /** No transaction ever waits on the channel, whatever the loop does, even after it has stopped. */
  lemma {:induction false} TransactionsNeverBlock(run: seq<System>, steps: seq<Step>, i: nat)
    requires IsRun(run, steps) && i < |run| && !run[i].tx.Idle?
    ensures Enabled(run[i], NextOf(run[i].tx))
  {
    EveryStateHolds(run, steps, i);
  }

  /** A transaction opened at `i` is still undecided at `k`. */
  ghost predicate Undecided(run: seq<System>, steps: seq<Step>, i: nat, k: nat)
    requires i < k < |run| == |steps| + 1
  {
    steps[i].Open? && forall l :: i < l <= k ==> Changing(run[l].tx) && !run[l].tx.Reloaded?
  }

  /** What the transaction itself did so far: written the file and perhaps counted a revision. The loop may have emptied the slot. */
  predicate OnlyFileAhead(before: System, file: Config, now: System) {
    && now.m.disk == before.m.disk[before.m.path := file] && now.m.path == before.m.path && now.m.persisted == before.m.persisted
    && now.fileRuntime == before.fileRuntime && now.goal == before.goal
    && now.m.revision == before.m.revision + (if now.tx.Counted? then 1 else 0)
    && (now.m.slot == before.m.slot || now.m.slot.None?)
    && Changing(now.tx) && !now.tx.Reloaded? && now.tx.change.file == file && now.tx.change.base == before.m.persisted
  }

  /** The part of the manager that describes the running generation. */
  datatype Running = Running(
    current: Config, handler: Option<Config>, healthyPath: string, healthy: Config, applied: nat, scheduled: bool)

  function RunningOf(m: State): Running {
    Running(m.current, m.handler, m.healthyPath, m.healthy, m.applied, m.scheduled)
  }

  /** The last attachment between `i` and `k`, or -1. */
  function LastAttach(steps: seq<Step>, i: nat, k: nat): int
    requires k <= |steps|
  {
    if k <= i + 1 then -1 else if steps[k - 1] == Start(true) then k - 1 else LastAttach(steps, i, k - 1)
  }

  lemma {:induction false} LastAttachIs(steps: seq<Step>, i: nat, k: nat)
    requires k <= |steps|
    ensures var l := LastAttach(steps, i, k);
            && (l == -1 || (i < l < k && steps[l] == Start(true)))
            && forall x :: i < x < k && x > l ==> steps[x] != Start(true)
  {
    if k > i + 1 && steps[k - 1] != Start(true) {
      LastAttachIs(steps, i, k - 1);
    }
  }

  /** The running generation as the last attachment left it, or as the transaction found it. */
  ghost predicate RunsAsAttached(run: seq<System>, steps: seq<Step>, i: nat, k: nat)
    requires i < k < |run| == |steps| + 1
  {
    LastAttachIs(steps, i, k);
    var l, now := LastAttach(steps, i, k), RunningOf(run[k].m);
    if l < 0 then now == RunningOf(run[i].m)
    else
      && run[l].phase.Starting?
      && now == Running(run[l].phase.cfg, Some(run[l].phase.cfg), run[i].m.path, run[i].m.persisted, run[l].m.revision, false)
  }

  lemma {:induction false} UndecidedStep(before: System, file: Config, now: System, step: Step)
    requires OnlyFileAhead(before, file, now) && Enabled(now, step)
    requires Changing(Do(now, step).tx) && !Do(now, step).tx.Reloaded?
    ensures OnlyFileAhead(before, file, Do(now, step))
  {
  }

  lemma {:induction false} UndecidedRunning(now: System, step: Step)
    requires Changing(now.tx) && !now.tx.Reloaded? && Enabled(now, step)
    requires Do(now, step).tx.Idle? || (Changing(Do(now, step).tx) && !Do(now, step).tx.Reloaded?)
    ensures step != Start(true) ==> RunningOf(Do(now, step).m) == RunningOf(now.m)
    ensures step == Start(true) ==>
              RunningOf(Do(now, step).m)
              == Running(now.phase.cfg, Some(now.phase.cfg), now.m.path, now.m.persisted, now.m.revision, false)
  {
  }

  lemma {:induction false} UndecidedTouchesOnlyFile(run: seq<System>, steps: seq<Step>, i: nat, k: nat)
    requires IsRun(run, steps) && i < k < |run| && Undecided(run, steps, i, k)
    ensures OnlyFileAhead(run[i], steps[i].file, run[k]) && RunsAsAttached(run, steps, i, k)
  {
    assert Follows(run, steps, k - 1);
    if k > i + 1 {
      assert Undecided(run, steps, i, k - 1);
      UndecidedTouchesOnlyFile(run, steps, i, k - 1);
      UndecidedStep(run[i], steps[i].file, run[k - 1], steps[k - 1]);
      UndecidedRunning(run[k - 1], steps[k - 1]);
    }
  }

  /**
   A transaction that fails leaves no trace but its revision number, in every
   interleaving with the loop: the file on every path, the path, the persisted
   configuration and what the file stands for are those it found, and the slot is as it
   was or emptied by the loop. Running configuration, data plane and rollback point are
   those it found or, if generations were attached meanwhile, those of the last of them.
   */
  lemma {:induction false} FailedTransactionLeavesNoTrace(run: seq<System>, steps: seq<Step>, i: nat, j: nat)
    requires IsRun(run, steps) && i < j < |steps| && Undecided(run, steps, i, j)
    requires (steps[j] == Preflight(false) || steps[j].Reload?) && run[j + 1].tx.Idle?
    ensures var before, after := run[i], run[j + 1];
            && after.m.disk == before.m.disk && after.m.path == before.m.path && after.m.persisted == before.m.persisted
            && after.fileRuntime == before.fileRuntime && after.goal == before.goal
            && (after.m.slot == before.m.slot || after.m.slot.None?) && after.m.revision == before.m.revision + 1
    ensures RunsAsAttached(run, steps, i, j) && RunningOf(run[j + 1].m) == RunningOf(run[j].m)
  {
    EveryStateHolds(run, steps, i);
    assert Follows(run, steps, i) && Follows(run, steps, j);
    UndecidedTouchesOnlyFile(run, steps, i, j);
    UndecidedRunning(run[j], steps[j]);
    var d, p := run[i].m.disk, run[i].m.path;
    assert d[p := steps[i].file][p := d[p]] == d;
  }

  /** An attachment during a transaction that fails takes the rejected revision for the applied one exactly when it was counted before. */
  lemma {:induction false} RejectedRevisionAppliedIff(run: seq<System>, steps: seq<Step>, i: nat, j: nat)
    requires IsRun(run, steps) && i < j < |steps| && Undecided(run, steps, i, j)
    requires (steps[j] == Preflight(false) || steps[j].Reload?) && run[j + 1].tx.Idle?
    requires LastAttach(steps, i, j) >= 0
    ensures i < LastAttach(steps, i, j) < j
    ensures run[j + 1].m.applied == run[j + 1].m.revision <==> run[LastAttach(steps, i, j)].tx.Counted?
  {
    LastAttachIs(steps, i, j);
    var l := LastAttach(steps, i, j);
    assert Undecided(run, steps, i, l);
    UndecidedTouchesOnlyFile(run, steps, i, l);
    FailedTransactionLeavesNoTrace(run, steps, i, j);
    assert run[j + 1].m.applied == run[l].m.revision;
  }

  lemma {:induction false} NoFallbackUntilStarted(run: seq<System>, steps: seq<Step>, i: nat, j: nat)
    requires IsRun(run, steps) && i < j <= |steps|
    requires Recovers(run[i], steps[i])
    requires forall k :: i < k < j ==> steps[k] != Start(true)
    ensures run[j].phase.Stopped? || (run[j].phase.Starting? && !run[j].phase.fallback)
  {
    if j == i + 1 {
      assert Follows(run, steps, i);
    } else {
      NoFallbackUntilStarted(run, steps, i, j - 1);
      assert Follows(run, steps, j - 1);
    }
  }

  /** The fallback is tried at most once in a row: between two rollbacks some generation started. */
  lemma {:induction false} FallbackAtMostOnceInARow(run: seq<System>, steps: seq<Step>, i: nat, j: nat)
    requires IsRun(run, steps) && i < j < |steps|
    requires Recovers(run[i], steps[i]) && Recovers(run[j], steps[j])
    ensures exists k :: i < k < j && steps[k] == Start(true)
  {
    if forall k :: i < k < j ==> steps[k] != Start(true) {
      NoFallbackUntilStarted(run, steps, i, j);
    }
  }

  // ---- Runs in which no change overtakes a restart ----

  /** A hot change is committed to the generation it looked at, with no restart under way; no candidate appears between draining and attaching. */
  predicate Calm(sys: System, step: Step) {
    && (step.Commit? && sys.tx.Reloaded? ==> sys.m.slot.None? && sys.phase.Serving? && sys.tx.sight.gen == sys.gen)
    && (step == Start(true) ==> !Pending(sys))
  }

  /** What will run once the loop has caught up. */
  function Target(sys: System): Config {
    if !Pending(sys) && sys.phase.Serving? then sys.m.current else Latest(sys)
  }

  predicate Looking(tx: Tx) {
    tx.Seen? || tx.Counted? || tx.Reloaded?
  }

  predicate HandlerServes(sys: System) {
    if sys.tx.Reloaded? && sys.tx.sight.gen == sys.gen then sys.m.handler == Some(sys.tx.change.next)
    else sys.m.handler == Some(sys.m.current)
  }

  predicate OnCourse(sys: System) {
    && Inv(sys)
    && (Looking(sys.tx) ==> sys.tx.sight.gen <= sys.gen)
    && (!sys.phase.Stopped? ==>
        && Target(sys) == sys.fileRuntime
        && sys.healthyRuntime == sys.m.current
        && (sys.phase.Serving? ==> HandlerServes(sys))
        && (sys.phase.Serving? && !Pending(sys) ==> sys.m.healthy == sys.m.persisted))
  }

  lemma {:induction false} CalmLoopStep(sys: System, step: Step)
    requires OnCourse(sys) && Enabled(sys, step) && Calm(sys, step) && IsLoopStep(step)
    ensures OnCourse(Do(sys, step))
  {
    LoopKeepsInv(sys, step);
  }

  lemma {:induction false} CalmTransactionStep(sys: System, step: Step)
    requires OnCourse(sys) && Enabled(sys, step) && Calm(sys, step) && !IsLoopStep(step)
    ensures OnCourse(Do(sys, step))
  {
    TransactionKeepsInv(sys, step);
  }

  lemma {:induction false} CalmStepStaysOnCourse(sys: System, step: Step)
    requires OnCourse(sys) && Enabled(sys, step) && Calm(sys, step)
    ensures OnCourse(Do(sys, step))
  {
    if IsLoopStep(step) {
      CalmLoopStep(sys, step);
    } else {
      CalmTransactionStep(sys, step);
    }
  }

  lemma {:induction false} CalmRunStaysOnCourse(run: seq<System>, steps: seq<Step>, i: nat)
    requires IsRun(run, steps) && i < |run|
    requires forall k :: 0 <= k < i ==> Calm(run[k], steps[k])
    ensures OnCourse(run[i])
  {
    if i > 0 {
      CalmRunStaysOnCourse(run, steps, i - 1);
      assert Follows(run, steps, i - 1) && Calm(run[i - 1], steps[i - 1]);
      CalmStepStaysOnCourse(run[i - 1], steps[i - 1]);
    }
  }

  /** A generation serves, no transaction is under way and no candidate waits. */
  predicate AtRest(sys: System) {
    sys.phase.Serving? && sys.tx.Idle? && sys.m.slot.None?
  }

  /** At rest in a calm run, file, manager, data plane and rollback point agree. */
  lemma {:induction false} CalmRunServesTheFile(run: seq<System>, steps: seq<Step>, i: nat)
    requires IsRun(run, steps) && i < |run| && AtRest(run[i])
    requires forall k :: 0 <= k < i ==> Calm(run[k], steps[k])
    ensures var s := run[i];
            && s.m.path in s.m.disk && s.m.disk[s.m.path] == s.m.persisted == s.m.healthy
            && s.m.handler == Some(s.m.current) && s.m.current == s.fileRuntime == s.healthyRuntime
  {
    CalmRunStaysOnCourse(run, steps, i);
  }

  /** A rollback in a calm run restores the file of the very configuration it starts again. */
  lemma {:induction false} CalmRollbackMatchesFile(run: seq<System>, steps: seq<Step>, i: nat)
    requires IsRun(run, steps) && i < |steps| && Recovers(run[i], steps[i])
    requires forall k :: 0 <= k < i ==> Calm(run[k], steps[k])
    ensures var s := run[i + 1];
            && s.phase == Starting(run[i].m.current, false) && s.phase.cfg == s.fileRuntime
            && s.m.path in s.m.disk && s.m.disk[s.m.path] == s.m.persisted == run[i].m.healthy && s.m.slot.None?
  {
    CalmRunStaysOnCourse(run, steps, i);
    assert Follows(run, steps, i);
  }

  // ---- Where the source goes off course ----

  /**
   A hot change stays on course exactly when nothing else is coming (no restart is
   under way, or it leads to the same configuration) and the generation it rebuilt is
   the one that serves (none was attached since the transaction looked, or the new one
   happens to run the same configuration).
   */
  lemma {:induction false} HotCommitOnCourseIff(sys: System)
    requires OnCourse(sys) && sys.tx.Reloaded? && !sys.phase.Stopped?
    ensures var next := sys.tx.change.next;
            OnCourse(Do(sys, Commit)) <==>
              && ((sys.m.slot.None? && sys.phase.Serving?) || sys.goal == next)
              && (sys.phase.Serving? && sys.tx.sight.gen != sys.gen ==> sys.m.current == next)
  {
    StepKeepsInv(sys, Commit);
  }

  /** A step that makes the manager take `c` for the configuration of the file. */
  predicate Accepts(run: seq<System>, steps: seq<Step>, k: nat)
    requires k < |steps| <= |run|
  {
    (steps[k] == Preflight(true) && run[k].tx.Counted?) || (steps[k].Commit? && run[k].tx.Reloaded?)
  }

  function AcceptedAt(run: seq<System>, k: nat): Config
    requires k < |run| && (run[k].tx.Counted? || run[k].tx.Reloaded?)
  {
    run[k].tx.change.next
  }

  predicate AcceptsSame(run: seq<System>, steps: seq<Step>, k: nat, c: Config)
    requires k < |steps| <= |run|
  {
    Accepts(run, steps, k) && AcceptedAt(run, k) == c
  }

  predicate AcceptsOther(run: seq<System>, steps: seq<Step>, k: nat, c: Config)
    requires k < |steps| <= |run|
  {
    Accepts(run, steps, k) && AcceptedAt(run, k) != c
  }

  /** Between `a` and `j`, no other configuration was accepted, or `c` was accepted again after it. */
  ghost predicate StillLatest(run: seq<System>, steps: seq<Step>, a: nat, j: nat, c: Config)
    requires j <= |steps| <= |run|
  {
    forall k :: a < k < j && AcceptsOther(run, steps, k, c) ==> exists l :: k < l < j && AcceptsSame(run, steps, l, c)
  }

  lemma {:induction false} FileRuntimeStep(sys: System, step: Step)
    requires Enabled(sys, step) && !Recovers(sys, step)
    ensures Do(sys, step).fileRuntime
         == if step == Preflight(true) || step.Commit? then sys.tx.change.next else sys.fileRuntime
  {
  }

  lemma {:induction false} FileFollowsAcceptances(run: seq<System>, steps: seq<Step>, a: nat, j: nat, c: Config)
    requires IsRun(run, steps) && a < j <= |steps| && AcceptsSame(run, steps, a, c)
    requires forall k :: a < k < j ==> !Recovers(run[k], steps[k])
    ensures run[j].fileRuntime == c <==> StillLatest(run, steps, a, j, c)
  {
    assert Follows(run, steps, j - 1);
    if j == a + 1 {
      FileRuntimeStep(run[a], steps[a]);
    } else {
      FileFollowsAcceptances(run, steps, a, j - 1, c);
      FileRuntimeStep(run[j - 1], steps[j - 1]);
      if AcceptsSame(run, steps, j - 1, c) {
        assert StillLatest(run, steps, a, j, c);
      } else if AcceptsOther(run, steps, j - 1, c) {
        assert !StillLatest(run, steps, a, j, c);
      } else {
        QuietStepSettlesNothing(run, steps, a, j, c);
      }
    }
  }

  lemma {:induction false} QuietStepSettlesNothing(run: seq<System>, steps: seq<Step>, a: nat, j: nat, c: Config)
    requires a < j - 1 && j <= |steps| <= |run| && !Accepts(run, steps, j - 1)
    ensures StillLatest(run, steps, a, j, c) <==> StillLatest(run, steps, a, j - 1, c)
  {
    if StillLatest(run, steps, a, j, c) {
      forall k | a < k < j - 1 && AcceptsOther(run, steps, k, c)
        ensures exists l :: k < l < j - 1 && AcceptsSame(run, steps, l, c)
      {
        var l :| k < l < j && AcceptsSame(run, steps, l, c);
        assert l != j - 1;
      }
    }
  }

  /**
   The rollback point recorded when a restart candidate starts is that candidate's own
   exactly when, from its acceptance to its start, no other configuration was accepted
   after it.
   */
  lemma {:induction false} RollbackPointMatchesIff(run: seq<System>, steps: seq<Step>, a: nat, j: nat)
    requires IsRun(run, steps) && a < j < |steps|
    requires steps[a] == Preflight(true) && run[a].tx.Counted? && steps[j] == Start(true)
    requires forall k :: a < k < j ==> !Recovers(run[k], steps[k])
    requires run[j].phase.Starting? && run[j].phase.cfg == AcceptedAt(run, a)
    ensures run[j + 1].healthyRuntime == run[j + 1].m.current
            <==> StillLatest(run, steps, a, j, run[j].phase.cfg)
  {
    FileFollowsAcceptances(run, steps, a, j, AcceptedAt(run, a));
    assert Follows(run, steps, j);
  }

  predicate CanDo(sys: System, steps: seq<Step>)
    decreases |steps|
  {
    steps == [] || (Enabled(sys, steps[0]) && CanDo(Do(sys, steps[0]), steps[1..]))
  }

  function After(sys: System, steps: seq<Step>): System
    requires CanDo(sys, steps)
    decreases |steps|
  {
    if steps == [] then sys else After(Do(sys, steps[0]), steps[1..])
  }

  lemma {:induction false} Then(sys: System, a: seq<Step>, b: seq<Step>)
    requires CanDo(sys, a) && CanDo(After(sys, a), b)
    ensures CanDo(sys, a + b) && After(sys, a + b) == After(After(sys, a), b)
    decreases |a|
  {
    if a == [] {
      assert a + b == b;
    } else {
      Then(Do(sys, a[0]), a[1..], b);
      assert (a + b)[0] == a[0] && (a + b)[1..] == a[1..] + b;
    }
  }

  lemma {:induction false} One(sys: System, step: Step)
    requires Enabled(sys, step)
    ensures CanDo(sys, [step]) && After(sys, [step]) == Do(sys, step)
  {
    assert [step][1..] == [];
    assert CanDo(Do(sys, step), []);
  }

  /** The transaction up to its decision. */
  function Prelude(file: Config, next: Config): seq<Step> {
    [Open(file, next)] + [Look] + [Count]
  }

  function Counting(sys: System, file: Config, next: Config): System {
    sys.(m := WriteFile(sys.m, file).(revision := sys.m.revision + 1),
         tx := Counted(Change(sys.m.persisted, file, next), Sight(sys.m.current, sys.gen, sys.m.handler.Some?), sys.m.revision + 1))
  }

  lemma {:induction false} PreludeRuns(sys: System, file: Config, next: Config)
    requires sys.tx.Idle?
    ensures CanDo(sys, Prelude(file, next)) && After(sys, Prelude(file, next)) == Counting(sys, file, next)
  {
    var a := Do(sys, Open(file, next));
    One(sys, Open(file, next));
    One(a, Look);
    Then(sys, [Open(file, next)], [Look]);
    One(Do(a, Look), Count);
    Then(sys, [Open(file, next)] + [Look], [Count]);
  }

  function HotChange(file: Config, next: Config): seq<Step> {
    Prelude(file, next) + [Reload(true)] + [Commit]
  }

  /** An undisturbed hot transaction does what one `Update` does. */
  lemma {:induction false} HotChangeRuns(sys: System, file: Config, next: Config)
    requires sys.tx.Idle? && sys.m.handler.Some? && RestartFields(sys.m.current, next) == []
    ensures CanDo(sys, HotChange(file, next))
    ensures After(sys, HotChange(file, next))
         == sys.(m := Accepted(WriteFile(sys.m, file), file, next), fileRuntime := next, healthyRuntime := next)
  {
    var c := Counting(sys, file, next);
    PreludeRuns(sys, file, next);
    One(c, Reload(true));
    Then(sys, Prelude(file, next), [Reload(true)]);
    One(Do(c, Reload(true)), Commit);
    Then(sys, Prelude(file, next) + [Reload(true)], [Commit]);
  }

  function Delivery(slot: Option<Config>): seq<Step> {
    if slot.None? then [TrySend] else [TrySend] + [Clear] + [Send]
  }

  lemma {:induction false} DeliveryRuns(sys: System)
    requires sys.tx.Offering?
    ensures CanDo(sys, Delivery(sys.m.slot))
    ensures After(sys, Delivery(sys.m.slot)) == sys.(m := sys.m.(slot := Some(sys.tx.next)), tx := Idle)
  {
    One(sys, TrySend);
    if sys.m.slot.Some? {
      var a := Do(sys, TrySend);
      One(a, Clear);
      Then(sys, [TrySend], [Clear]);
      One(Do(a, Clear), Send);
      Then(sys, [TrySend] + [Clear], [Send]);
    }
  }

  function RestartChange(file: Config, next: Config, slot: Option<Config>): seq<Step> {
    Prelude(file, next) + [Preflight(true)] + Delivery(slot)
  }

  /** So does an undisturbed transaction that needs a restart. */
  lemma {:induction false} RestartChangeRuns(sys: System, file: Config, next: Config)
    requires sys.tx.Idle? && RestartFields(sys.m.current, next) != []
    ensures CanDo(sys, RestartChange(file, next, sys.m.slot))
    ensures After(sys, RestartChange(file, next, sys.m.slot))
         == sys.(m := Accepted(WriteFile(sys.m, file), file, next), goal := next, fileRuntime := next)
  {
    var c := Counting(sys, file, next);
    PreludeRuns(sys, file, next);
    One(c, Preflight(true));
    Then(sys, Prelude(file, next), [Preflight(true)]);
    DeliveryRuns(Do(c, Preflight(true)));
    Then(sys, Prelude(file, next) + [Preflight(true)], Delivery(sys.m.slot));
  }

  function Handover(): seq<Step> {
    [Take] + [FinishDrain]
  }

  lemma {:induction false} HandoverRuns(sys: System)
    requires sys.phase.Serving? && sys.m.slot.Some?
    ensures CanDo(sys, Handover())
    ensures After(sys, Handover()) == sys.(m := sys.m.(slot := None), phase := Starting(sys.m.slot.value, true))
  {
    One(sys, Take);
    One(Do(sys, Take), FinishDrain);
    Then(sys, [Take], [FinishDrain]);
  }

  function StaleRun(bFile: Config, b: Config, cFile: Config, c: Config): seq<Step> {
    RestartChange(bFile, b, None) + HotChange(cFile, c) + Handover() + [Start(true)]
  }

  /**
   A hot change accepted while a restart is pending is undone by that restart:
   from any state at rest, for any restart candidate `b` and hot change `c`, the
   server comes to rest running `b` while file and rollback point say `c`.
   */
  lemma {:induction false} PendingRestartUndoesHotChange(sys: System, bFile: Config, b: Config, cFile: Config, c: Config)
    requires AtRest(sys) && sys.m.handler.Some?
    requires RestartFields(sys.m.current, b) != [] && RestartFields(sys.m.current, c) == []
    ensures CanDo(sys, StaleRun(bFile, b, cFile, c))
    ensures var t := After(sys, StaleRun(bFile, b, cFile, c));
            && AtRest(t) && t.m.handler == Some(b) && b != c && t.fileRuntime == t.healthyRuntime == c
            && t.m.persisted == t.m.healthy == cFile && t.m.path in t.m.disk && t.m.disk[t.m.path] == cFile
  {
    RestartChangeRuns(sys, bFile, b);
    var s1 := After(sys, RestartChange(bFile, b, None));
    HotChangeRuns(s1, cFile, c);
    Then(sys, RestartChange(bFile, b, None), HotChange(cFile, c));
    var s2 := After(s1, HotChange(cFile, c));
    HandoverRuns(s2);
    Then(sys, RestartChange(bFile, b, None) + HotChange(cFile, c), Handover());
    var s3 := After(s2, Handover());
    One(s3, Start(true));
    Then(sys, RestartChange(bFile, b, None) + HotChange(cFile, c) + Handover(), [Start(true)]);
  }

  function DiscardingRun(bFile: Config, b: Config, cFile: Config, c: Config): seq<Step> {
    RestartChange(bFile, b, None) + Handover() + RestartChange(cFile, c, None) + [Start(false)] + [Start(true)]
  }

  /**
   A restart candidate accepted while an earlier one is starting is discarded when that
   one fails: from any state at rest and for any two candidates, the server comes to rest
   on the configuration it had, with the old file written back and an empty slot.
   */
  lemma {:induction false} RollbackDiscardsNewerCandidate(sys: System, bFile: Config, b: Config, cFile: Config, c: Config)
    requires AtRest(sys) && Trim(sys.m.healthyPath) != ""
    requires RestartFields(sys.m.current, b) != [] && RestartFields(sys.m.current, c) != []
    ensures CanDo(sys, DiscardingRun(bFile, b, cFile, c))
    ensures var t := After(sys, DiscardingRun(bFile, b, cFile, c));
            && AtRest(t) && t.phase.started == sys.m.current != c && t.m.handler == Some(sys.m.current)
            && t.m.persisted == sys.m.healthy && t.m.path in t.m.disk && t.m.disk[t.m.path] == sys.m.healthy
  {
    var r1, r2 := RestartChange(bFile, b, None), RestartChange(cFile, c, None);
    RestartChangeRuns(sys, bFile, b);
    var s1 := After(sys, r1);
    HandoverRuns(s1);
    Then(sys, r1, Handover());
    var s2 := After(s1, Handover());
    RestartChangeRuns(s2, cFile, c);
    Then(sys, r1 + Handover(), r2);
    var s3 := After(s2, r2);
    One(s3, Start(false));
    Then(sys, r1 + Handover() + r2, [Start(false)]);
    var s4 := Do(s3, Start(false));
    One(s4, Start(true));
    Then(sys, r1 + Handover() + r2 + [Start(false)], [Start(true)]);
    HotIffSameListeners(sys.m.current, c);
  }

  function OvertakenRun(bFile: Config, b: Config, cFile: Config, c: Config): seq<Step> {
    RestartChange(bFile, b, None) + (Prelude(cFile, c) + [Reload(true)]) + Handover() + [Start(true)] + [Commit]
  }

  /**
   A hot change whose generation is replaced between its reload and its commit is lost
   as well, although no restart is under way when it commits: the server comes to rest
   running `b`, while manager, file and rollback point say `c`.
   */
  lemma {:induction false} OvertakenHotChangeIsLost(sys: System, bFile: Config, b: Config, cFile: Config, c: Config)
    requires AtRest(sys) && sys.m.handler.Some?
    requires RestartFields(sys.m.current, b) != [] && RestartFields(sys.m.current, c) == []
    ensures CanDo(sys, OvertakenRun(bFile, b, cFile, c))
    ensures var t := After(sys, OvertakenRun(bFile, b, cFile, c));
            && AtRest(t) && t.m.handler == Some(b) && b != c && t.m.current == t.fileRuntime == t.healthyRuntime == c
            && t.m.persisted == t.m.healthy == cFile && t.m.path in t.m.disk && t.m.disk[t.m.path] == cFile
  {
    var r1, r2 := RestartChange(bFile, b, None), Prelude(cFile, c) + [Reload(true)];
    RestartChangeRuns(sys, bFile, b);
    var s1 := After(sys, r1);
    PreludeRuns(s1, cFile, c);
    One(Counting(s1, cFile, c), Reload(true));
    Then(s1, Prelude(cFile, c), [Reload(true)]);
    var s2 := After(s1, r2);
    Then(sys, r1, r2);
    HandoverRuns(s2);
    Then(sys, r1 + r2, Handover());
    var s3 := After(s2, Handover());
    One(s3, Start(true));
    Then(sys, r1 + r2 + Handover(), [Start(true)]);
    One(Do(s3, Start(true)), Commit);
    Then(sys, r1 + r2 + Handover() + [Start(true)], [Commit]);
  }

  function LateRun(bFile: Config, b: Config, cFile: Config, c: Config): seq<Step> {
    RestartChange(bFile, b, None) + Handover() + RestartChange(cFile, c, None) + [Start(true)] + Handover() + [Start(false)]
  }

  /**
   A restart candidate accepted after the drain and before the new generation is
   attached becomes that generation's rollback file. When the candidate then fails
   to start, the rollback writes the failed file back and starts the other one.
   */
  lemma {:induction false} RollbackRestoresFailedFile(sys: System, bFile: Config, b: Config, cFile: Config, c: Config)
    requires AtRest(sys) && Trim(sys.m.path) != "" && b != c
    requires RestartFields(sys.m.current, b) != [] && RestartFields(sys.m.current, c) != []
    ensures CanDo(sys, LateRun(bFile, b, cFile, c))
    ensures var t := After(sys, LateRun(bFile, b, cFile, c));
            && t.phase == Starting(b, false) && t.fileRuntime == c != b
            && t.m.persisted == cFile && t.m.path in t.m.disk && t.m.disk[t.m.path] == cFile
  {
    var r1, r2 := RestartChange(bFile, b, None), RestartChange(cFile, c, None);
    RestartChangeRuns(sys, bFile, b);
    var s1 := After(sys, r1);
    HandoverRuns(s1);
    Then(sys, r1, Handover());
    var s2 := After(s1, Handover());
    RestartChangeRuns(s2, cFile, c);
    Then(sys, r1 + Handover(), r2);
    var s3 := After(s2, r2);
    One(s3, Start(true));
    Then(sys, r1 + Handover() + r2, [Start(true)]);
    var s4 := Do(s3, Start(true));
    HandoverRuns(s4);
    Then(sys, r1 + Handover() + r2 + [Start(true)], Handover());
    var s5 := After(s4, Handover());
    One(s5, Start(false));
    Then(sys, r1 + Handover() + r2 + [Start(true)] + Handover(), [Start(false)]);
  }
}
