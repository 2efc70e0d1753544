/**
 The dotenv loader: it owns the variables it set itself, never those the
 deployment provided, and every load is a transaction that either takes full
 effect or leaves the process environment as it was.
 */
module EnvFile {

  type Vars = map<string, string>

  /** The process environment and the part of it this loader set. */
  datatype State = State(env: Vars, managed: Vars)

  /** What belongs to the deployment. */
  function Deployment(s: State): Vars {
    s.env - s.managed.Keys
  }

  /** Managed variables are set as recorded. */
  ghost predicate Consistent(s: State) {
    forall k :: k in s.managed ==> k in s.env && s.env[k] == s.managed[k]
  }

  /** The loader's variables after a load: file values for keys the deployment does not own. */
  function Loaded(s: State, values: Vars, reload: bool): Vars {
    (if reload then map[] else s.managed) + (values - Deployment(s).Keys)
  }

  function AfterLoad(s: State, values: Vars, reload: bool): State {
    State(Deployment(s) + Loaded(s, values, reload), Loaded(s, values, reload))
  }

  function AfterRestore(s: State, snapshot: Vars): State {
    State(Deployment(s) + snapshot, snapshot)
  }

  lemma {:induction false} EnvIsSum(s: State)
    requires Consistent(s)
    ensures s.env == Deployment(s) + s.managed
  {
  }

  datatype Saved = Absent | Present(value: string)

  function Lookup(env: Vars, k: string): Saved {
    if k in env then Present(env[k]) else Absent
  }

  function Put(env: Vars, k: string, v: Saved): Vars {
    match v
    case Absent => env - {k}
    case Present(x) => env[k := x]
  }

  /** The recorded values are enough to get from `env` back to `original`. */
  ghost predicate CanUndo(env: Vars, original: Vars, saved: map<string, Saved>) {
    && (forall k :: k in saved ==> saved[k] == Lookup(original, k))
    && forall k :: k !in saved ==> Lookup(env, k) == Lookup(original, k)
  }

  lemma {:induction false} UndoKeeps(env: Vars, original: Vars, saved: map<string, Saved>, key: string, v: Saved)
    requires CanUndo(env, original, saved)
    ensures var s := if key in saved then saved else saved[key := Lookup(env, key)];
            CanUndo(Put(env, key, v), original, s)
  {
  }

  lemma {:induction false} SameLookups(a: Vars, b: Vars)
    requires forall k :: Lookup(a, k) == Lookup(b, k)
    ensures a == b
  {
    forall k | k in a ensures k in b && a[k] == b[k] {
      assert Lookup(a, k) == Lookup(b, k);
    }
    forall k | k in b ensures k in a {
      assert Lookup(a, k) == Lookup(b, k);
    }
  }

  /** A load under way: undoable, consistent, and the deployment's variables untouched. */
  ghost predicate Underway(s: State, original: Vars, saved: map<string, Saved>, deployment: Vars) {
    CanUndo(s.env, original, saved) && Consistent(s) && Deployment(s) == deployment
  }

  function Recorded(saved: map<string, Saved>, env: Vars, key: string): map<string, Saved> {
    if key in saved then saved else saved[key := Lookup(env, key)]
  }

  lemma {:induction false} RecordStep(s: State, original: Vars, saved: map<string, Saved>, d: Vars, key: string)
    requires Underway(s, original, saved, d)
    ensures Underway(s, original, Recorded(saved, s.env, key), d)
  {
  }

  lemma {:induction false} UnsetStep(s: State, original: Vars, saved: map<string, Saved>, d: Vars, key: string)
    requires Underway(s, original, saved, d) && key in s.managed
    ensures Underway(State(s.env - {key}, s.managed - {key}), original, Recorded(saved, s.env, key), d)
  {
    UndoKeeps(s.env, original, saved, key, Absent);
    DropKeepsDeployment(s, key);
  }

  lemma {:induction false} SetStep(s: State, original: Vars, saved: map<string, Saved>, d: Vars, key: string, v: string)
    requires Underway(s, original, saved, d) && (key in s.managed || key !in s.env)
    ensures Underway(State(s.env[key := v], s.managed[key := v]), original, Recorded(saved, s.env, key), d)
  {
    UndoKeeps(s.env, original, saved, key, Present(v));
    SetKeepsDeployment(s, key, v);
  }

  /** The managed variables when only those in `todo` are left to be looked at. */
  function StillManaged(managed: Vars, values: Vars, todo: set<string>): Vars {
    map k | k in managed && (k in todo || k in values) :: managed[k]
  }

  lemma {:induction false} DropOne(managed: Vars, values: Vars, todo: set<string>, key: string)
    requires key in todo && todo <= managed.Keys
    ensures key in StillManaged(managed, values, todo)
    ensures StillManaged(managed, values, todo - {key})
         == if key in values then StillManaged(managed, values, todo) else StillManaged(managed, values, todo) - {key}
    ensures todo - {key} <= StillManaged(managed, values, todo - {key}).Keys
  {
  }

  class Loader {
    var env: Vars
    var managed: Vars

    ghost function View(): State
      reads this
    {
      State(env, managed)
    }

    constructor (env: Vars)
      ensures View() == State(env, map[])
    {
      this.env, managed := env, map[];
    }

    method Snapshot() returns (values: Vars)
      ensures values == managed
    {
      values := managed;
    }

    /** Undo every recorded change, in any order. */
    method Rollback(saved: map<string, Saved>, previousManaged: Vars, ghost original: Vars)
      requires CanUndo(env, original, saved)
      modifies this
      ensures env == original && managed == previousManaged
    {
      var todo := saved.Keys;
      while todo != {}
        invariant todo <= saved.Keys
        invariant forall k :: k !in todo ==> Lookup(env, k) == Lookup(original, k)
        decreases todo
      {
        var key :| key in todo;
        todo := todo - {key};
        env := Put(env, key, saved[key]);
      }
      SameLookups(env, original);
      managed := previousManaged;
    }

    /** Unset what the file no longer has; `fails` says which variables the system refuses to change. */
    method DropMissing(values: Vars, fails: string -> bool, ghost original: Vars)
      returns (ok: bool, saved: map<string, Saved>)
      requires Consistent(View()) && env == original
      modifies this
      ensures Underway(View(), original, saved, old(Deployment(View())))
      ensures ok ==> managed == StillManaged(old(managed), values, {})
      ensures (forall k :: !fails(k)) ==> ok
    {
      saved := map[];
      ghost var d := Deployment(View());
      var todo := managed.Keys;
      while todo != {}
        invariant todo <= managed.Keys
        invariant Underway(View(), original, saved, d)
        invariant managed == StillManaged(old(managed), values, todo)
        decreases todo
      {
        var key :| key in todo;
        DropOne(old(managed), values, todo, key);
        todo := todo - {key};
        if key !in values {
          RecordStep(View(), original, saved, d, key);
          UnsetStep(View(), original, saved, d, key);
          saved := Recorded(saved, env, key);
          if fails(key) {
            return false, saved;
          }
          env, managed := env - {key}, managed - {key};
        }
      }
      ok := true;
    }

    /** Set the file's values except where the deployment already decides. */
    method SetValues(values: Vars, fails: string -> bool, start: map<string, Saved>, ghost original: Vars)
      returns (ok: bool, saved: map<string, Saved>)
      requires Underway(View(), original, start, Deployment(View()))
      modifies this
      ensures Underway(View(), original, saved, old(Deployment(View())))
      ensures ok ==> managed == old(managed) + (values - old(Deployment(View())).Keys)
      ensures (forall k :: !fails(k)) ==> ok
    {
      saved := start;
      var todo := values.Keys;
      ghost var d := Deployment(View());
      ghost var file := values - d.Keys;
      while todo != {}
        invariant todo <= values.Keys
        invariant Underway(View(), original, saved, d)
        invariant managed == old(managed) + (file - todo)
        decreases todo
      {
        var key :| key in todo;
        FileStep(old(managed), file, todo, key);
        assert key in d <==> key in env && key !in managed;
        todo := todo - {key};
        if key !in managed && key in env {
          continue;
        }
        RecordStep(View(), original, saved, d, key);
        SetStep(View(), original, saved, d, key, values[key]);
        saved := Recorded(saved, env, key);
        if fails(key) {
          return false, saved;
        }
        env, managed := env[key := values[key]], managed[key := values[key]];
      }
      assert file - {} == file;
      ok := true;
    }

    /** Load a parsed file: all of it, or nothing. */
    method LoadFile(values: Vars, reload: bool, fails: string -> bool, validate: bool) returns (ok: bool)
      requires Consistent(View())
      modifies this
      ensures Consistent(View())
      ensures ok ==> validate && View() == AfterLoad(old(View()), values, reload)
      ensures !ok ==> View() == old(View())
      ensures (forall k :: !fails(k)) ==> ok == validate
      ensures Deployment(View()) == old(Deployment(View()))
    {
      var previousManaged := managed;
      ghost var original := env;
      var saved: map<string, Saved> := map[];
      ok := true;
      if reload {
        ok, saved := DropMissing(values, fails, original);
      }
      if ok {
        ok, saved := SetValues(values, fails, saved, original);
      }
      if ok && validate {
        FinishedLoad(old(View()), values, reload, View());
      } else {
        Rollback(saved, previousManaged, original);
        ok := false;
      }
    }

    /** Bring back an earlier set of managed variables. */
    method RestoreManaged(snapshot: Vars)
      modifies this
      ensures View() == AfterRestore(old(View()), snapshot)
    {
      UnsetOthers(snapshot);
      SetAll(snapshot);
      assert (old(env) - (managed.Keys - snapshot.Keys)) + snapshot == (old(env) - managed.Keys) + snapshot;
      managed := snapshot;
    }

    method UnsetOthers(snapshot: Vars)
      modifies `env
      ensures env == old(env) - (managed.Keys - snapshot.Keys)
    {
      var todo := managed.Keys - snapshot.Keys;
      ghost var all := todo;
      while todo != {}
        invariant todo <= all
        invariant env == old(env) - (all - todo)
        decreases todo
      {
        var key :| key in todo;
        assert (old(env) - (all - todo)) - {key} == old(env) - (all - (todo - {key}));
        todo := todo - {key};
        env := env - {key};
      }
      assert all - {} == all;
    }

    method SetAll(snapshot: Vars)
      modifies `env
      ensures env == old(env) + snapshot
    {
      var todo := snapshot.Keys;
      while todo != {}
        invariant todo <= snapshot.Keys
        invariant env == old(env) + (snapshot - todo)
        decreases todo
      {
        var key :| key in todo;
        FileStep(old(env), snapshot, todo, key);
        todo := todo - {key};
        env := env[key := snapshot[key]];
      }
      assert snapshot - {} == snapshot;
    }
  }

  lemma {:induction false} DropKeepsDeployment(s: State, key: string)
    requires key in s.managed
    ensures Deployment(State(s.env - {key}, s.managed - {key})) == Deployment(s)
  {
  }

  lemma {:induction false} SetKeepsDeployment(s: State, key: string, value: string)
    requires key in s.managed || key !in s.env
    ensures Deployment(State(s.env[key := value], s.managed[key := value])) == Deployment(s)
  {
  }

  /** Handling one key of the file: nothing to do if the deployment owns it, else one more value set. */
  lemma {:induction false} FileStep(base: Vars, file: Vars, todo: set<string>, key: string)
    requires key in todo
    ensures key !in file ==> base + (file - (todo - {key})) == base + (file - todo)
    ensures key in file ==> base + (file - (todo - {key})) == (base + (file - todo))[key := file[key]]
  {
    if key !in file {
      assert file - (todo - {key}) == file - todo;
    }
  }

  lemma {:induction false} FinishedLoad(before: State, values: Vars, reload: bool, after: State)
    requires Consistent(before) && Consistent(after) && Deployment(after) == Deployment(before)
    requires after.managed ==
             (if reload then StillManaged(before.managed, values, {}) else before.managed)
             + (values - Deployment(before).Keys)
    ensures after == AfterLoad(before, values, reload)
  {
    EnvIsSum(after);
    assert after.managed == Loaded(before, values, reload);
  }

  // ----- runs ---------------------------------------------------------------

  /** A reload yields the deployment's variables plus the file's for every key the deployment does not own. */
  lemma {:induction false} ReloadYields(s: State, values: Vars, k: string)
    ensures Lookup(AfterLoad(s, values, true).env, k)
            == if k in Deployment(s) then Present(s.env[k]) else Lookup(values, k)
    ensures Deployment(AfterLoad(s, values, true)) == Deployment(s)
    ensures Consistent(AfterLoad(s, values, true))
  {
  }

  /** A load that is not a reload keeps what earlier files set, except where this file sets it anew. */
  lemma {:induction false} LoadYields(s: State, values: Vars, k: string)
    ensures Lookup(AfterLoad(s, values, false).env, k)
            == if k in Deployment(s) then Present(s.env[k])
               else if k in values then Present(values[k]) else Lookup(s.managed, k)
    ensures Deployment(AfterLoad(s, values, false)) == Deployment(s)
    ensures Consistent(AfterLoad(s, values, false))
  {
    LoadKeepsDeployment(s, values, false);
  }

  /** A restored snapshot decides every variable but the deployment's others. */
  lemma {:induction false} RestoreYields(s: State, snapshot: Vars, k: string)
    ensures Lookup(AfterRestore(s, snapshot).env, k)
            == if k in snapshot then Present(snapshot[k]) else if k in s.managed then Absent else Lookup(s.env, k)
    ensures AfterRestore(s, snapshot).managed == snapshot && Consistent(AfterRestore(s, snapshot))
  {
  }

  lemma {:induction false} LoadKeepsDeployment(s: State, values: Vars, reload: bool)
    ensures Deployment(AfterLoad(s, values, reload)) == Deployment(s)
  {
    var loaded := Loaded(s, values, reload);
    assert loaded.Keys !! Deployment(s).Keys;
    assert (Deployment(s) + loaded) - loaded.Keys == Deployment(s);
  }

  /** What a reload leaves does not depend on what was loaded before. */
  lemma {:induction false} ReloadForgetsHistory(s: State, earlier: Vars, reload: bool, values: Vars)
    ensures AfterLoad(AfterLoad(s, earlier, reload), values, true) == AfterLoad(s, values, true)
  {
    LoadKeepsDeployment(s, earlier, reload);
  }

  datatype Load = Load(values: Vars, reload: bool, succeeded: bool)

  ghost predicate Follows(run: seq<State>, loads: seq<Load>, i: nat)
    requires i < |loads| && |run| == |loads| + 1
  {
    run[i + 1] == if loads[i].succeeded then AfterLoad(run[i], loads[i].values, loads[i].reload) else run[i]
  }

  ghost predicate IsRun(run: seq<State>, loads: seq<Load>) {
    |run| == |loads| + 1 && forall i :: 0 <= i < |loads| ==> Follows(run, loads, i)
  }

  lemma {:induction false} RunKeepsDeployment(run: seq<State>, loads: seq<Load>, i: nat)
    requires IsRun(run, loads) && i < |run|
    ensures Deployment(run[i]) == Deployment(run[0])
  {
    if i > 0 {
      RunKeepsDeployment(run, loads, i - 1);
      assert Follows(run, loads, i - 1);
      LoadKeepsDeployment(run[i - 1], loads[i - 1].values, loads[i - 1].reload);
    }
  }

  /** Restoring a snapshot undoes any run of later loads, failed or not. */
  lemma {:induction false} RestoreUndoesRun(run: seq<State>, loads: seq<Load>, i: nat)
    requires IsRun(run, loads) && i < |run| && Consistent(run[0])
    ensures AfterRestore(run[i], run[0].managed) == run[0]
  {
    RunKeepsDeployment(run, loads, i);
    EnvIsSum(run[0]);
  }
}
