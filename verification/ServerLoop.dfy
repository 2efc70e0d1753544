/**
 The generation loop as it drives the manager. What happens to each generation
 (does it start, which changes arrive when, how does it end) is a script.
 */
module ServerLoop {
  import opened Text
  import opened Control

  datatype Ending = Signal | Broken | Restart(arriving: seq<World>, clean: bool)

  /** One turn: changes while the generation starts, whether it does, changes while it serves, how it ends. */
  datatype Fate = Fate(early: seq<World>, starts: bool, serving: seq<World>, ending: Ending)

  datatype Attempt = Attempt(cfg: Config, ok: bool)

  predicate SameListeners(a: Config, b: Config) {
    b == Transplant(a, b)
  }

  /** The file the manager believes in is on disk, and the rollback file has a name. */
  predicate Sound(s: State) {
    && s.path in s.disk && s.disk[s.path] == s.persisted
    && s.applied <= s.revision && Trim(s.path) != "" && Trim(s.healthyPath) != ""
  }

  // ----- changes in a row ---------------------------------------------------

  function Updated(s: State, ws: seq<World>): State {
    if ws == [] then s else AfterUpdate(Updated(s, ws[..|ws| - 1]), ws[|ws| - 1])
  }

  /** The restart candidate an update leads to, if it does. */
  function Offered(s: State, w: World): seq<Config> {
    match Candidate(s.persisted, w)
    case None => []
    case Some(file) =>
      match w.overlay(file)
      case None => []
      case Some(next) => if w.preflight && !SameListeners(s.current, next) then [next] else []
  }

  /** The restart candidates of several updates, the newest last. */
  function Candidates(s: State, ws: seq<World>): seq<Config> {
    if ws == [] then []
    else
      var front := ws[..|ws| - 1];
      Candidates(s, front) + Offered(Updated(s, front), ws[|ws| - 1])
  }

  function Newest(slot: Option<Config>, candidates: seq<Config>): Option<Config> {
    if candidates == [] then slot else Some(candidates[|candidates| - 1])
  }

  /** Whatever the updates do, the slot holds the newest candidate. */
  lemma {:induction false} SlotHoldsNewest(s: State, ws: seq<World>)
    ensures Updated(s, ws).slot == Newest(s.slot, Candidates(s, ws))
  {
    if ws != [] {
      var front, w := ws[..|ws| - 1], ws[|ws| - 1];
      SlotHoldsNewest(s, front);
      OfferFills(Updated(s, front), w);
    }
  }

  lemma {:induction false} OfferFills(s: State, w: World)
    ensures AfterUpdate(s, w).slot == Newest(s.slot, Offered(s, w))
  {
    if Candidate(s.persisted, w).Some? && w.overlay(Candidate(s.persisted, w).value).Some? {
      HotIffSameListeners(s.current, w.overlay(Candidate(s.persisted, w).value).value);
    }
  }

  /** Changes made through the manager keep the listeners of the generation that runs. */
  method Change(m: Manager, w: World)
    requires Sound(m.View())
    modifies m
    ensures Sound(m.View()) && SameListeners(old(m.current), m.current)
    ensures m.View() == AfterUpdate(old(m.View()), w)
  {
    ghost var before := m.View();
    var r := m.Update(w);
    if r.Failed? {
      FailedUpdateKeepsFileIff(before);
    } else {
      assert m.disk[m.path] == m.persisted;
    }
  }

  method ChangeAll(m: Manager, ws: seq<World>)
    requires Sound(m.View())
    modifies m
    ensures Sound(m.View()) && SameListeners(old(m.current), m.current)
    ensures m.View() == Updated(old(m.View()), ws)
  {
    for i := 0 to |ws|
      invariant Sound(m.View()) && SameListeners(old(m.current), m.current)
      invariant m.View() == Updated(old(m.View()), ws[..i])
    {
      assert ws[..i + 1][..i] == ws[..i];
      Change(m, ws[i]);
    }
    assert ws[..|ws|] == ws;
  }

  /** Candidates that arrived while the listeners drained replace the one taken. */
  method LatestRestart(m: Manager, taken: Config) returns (latest: Config)
    modifies m`slot
    ensures m.slot.None?
    ensures latest == if old(m.slot).Some? then old(m.slot).value else taken
  {
    latest := taken;
    while m.slot.Some?
      invariant latest == if m.slot.None? && old(m.slot).Some? then old(m.slot).value else taken
      invariant m.slot.Some? ==> m.slot == old(m.slot)
      decreases m.slot.Some?
    {
      latest := m.slot.value;
      m.slot := None;
    }
  }

  function Attached(s: State, cfg: Config): State {
    s.(handler := Some(cfg), current := cfg, healthyPath := s.path, healthy := s.persisted, scheduled := false, applied := s.revision)
  }

  /**
   What replaces a generation that starts in `s`: the newest of the candidates waiting
   when it starts, accepted while it serves, or accepted while its listeners drain.
   */
  function Successor(s: State, cfg: Config, fate: Fate): Option<Config> {
    var up := Attached(s, cfg);
    var waiting := Newest(s.slot, Candidates(up, fate.serving));
    if fate.ending.Restart? && fate.ending.clean && waiting.Some?
    then Newest(waiting, Candidates(Updated(up, fate.serving).(slot := None), fate.ending.arriving))
    else None
  }

  /** A generation from its start to the configuration that replaces it, if one does. */
  method Serve(m: Manager, cfg: Config, fate: Fate) returns (next: Option<Config>)
    requires Sound(m.View())
    modifies m
    ensures Sound(m.View()) && SameListeners(cfg, m.current)
    ensures next == Successor(old(m.View()), cfg, fate)
    ensures next.Some? ==> m.slot.None?
  {
    m.Attach(cfg);
    SlotHoldsNewest(m.View(), fate.serving);
    ChangeAll(m, fate.serving);
    if !fate.ending.Restart? || m.slot.None? { return None; }
    next := Drain(m, fate.ending.arriving, fate.ending.clean);
  }

  /** The loop takes the candidate, and the listeners drain while more may arrive. */
  method Drain(m: Manager, arriving: seq<World>, clean: bool) returns (next: Option<Config>)
    requires Sound(m.View()) && m.slot.Some?
    modifies m
    ensures Sound(m.View()) && SameListeners(old(m.current), m.current)
    ensures next == if clean then Newest(old(m.slot), Candidates(old(m.View()).(slot := None), arriving)) else None
    ensures next.Some? ==> m.slot.None?
  {
    var taken := m.slot.value;
    m.slot := None;
    SlotHoldsNewest(m.View(), arriving);
    ChangeAll(m, arriving);
    if !clean { return None; }
    var latest := LatestRestart(m, taken);
    return Some(latest);
  }

  /** A failed start that is not the last: a generation ran just before, and its listeners are tried next. */
  predicate FallsBackOnce(log: seq<Attempt>, i: int) {
    0 <= i < |log| - 1 && !log[i].ok ==>
      i > 0 && log[i - 1].ok && SameListeners(log[i - 1].cfg, log[i + 1].cfg)
  }

  /** What the loop knows before it tries `cfg`. */
  predicate Poised(log: seq<Attempt>, cfg: Config, fallback: bool, current: Config) {
    && (fallback <==> log != [] && log[|log| - 1].ok)
    && (fallback ==> SameListeners(log[|log| - 1].cfg, current))
    && (log != [] && !log[|log| - 1].ok ==>
          |log| > 1 && log[|log| - 2].ok && SameListeners(log[|log| - 2].cfg, cfg))
  }

  /** What the log of attempts says about the script so far. */
  ghost predicate Recounts(log: seq<Attempt>, script: seq<Fate>, runtime: Config) {
    && |log| <= |script| && (forall i :: 0 <= i < |log| ==> log[i].ok == script[i].starts)
    && (log != [] ==> log[0].cfg == runtime) && forall i :: 0 <= i < |log| ==> FallsBackOnce(log, i)
  }

  lemma {:induction false} TryKeeps(log: seq<Attempt>, script: seq<Fate>, runtime: Config, cfg: Config, fallback: bool, current: Config)
    requires Recounts(log, script, runtime) && |log| < |script| && Poised(log, cfg, fallback, current)
    requires log == [] ==> cfg == runtime
    ensures Recounts(log + [Attempt(cfg, script[|log|].starts)], script, runtime)
  {
    var after := log + [Attempt(cfg, script[|log|].starts)];
    forall i | 0 <= i < |after| ensures FallsBackOnce(after, i) {
      if i < |log| { assert FallsBackOnce(log, i); }
    }
  }

  /** After a failed try with a fallback, and after a generation that is to be replaced. */
  lemma {:induction false} PoisedAgain(log: seq<Attempt>, cfg: Config, ok: bool, fallback: bool, current: Config, next: Config, later: Config)
    requires Poised(log, cfg, fallback, current)
    ensures !ok && fallback && next == current ==> Poised(log + [Attempt(cfg, ok)], next, false, later)
    ensures ok && SameListeners(cfg, later) ==> Poised(log + [Attempt(cfg, ok)], next, true, later)
  {
  }

  /** What attempt `i + 1` tries: the successor of a generation that ran, or what ran before one that did not start. */
  ghost predicate Succession(log: seq<Attempt>, states: seq<State>, script: seq<Fate>, i: int) {
    0 <= i < |log| - 1 && |log| <= |states| && |log| <= |script| ==>
      if log[i].ok then Successor(states[i], log[i].cfg, script[i]) == Some(log[i + 1].cfg)
      else log[i + 1].cfg == states[i].current
  }

  /** The configuration the loop is about to try is the one it should. */
  ghost predicate Due(log: seq<Attempt>, states: seq<State>, script: seq<Fate>, cfg: Config) {
    && |log| == |states| <= |script|
    && (forall i :: 0 <= i < |log| ==> Succession(log, states, script, i))
    && (log != [] ==>
          var i := |log| - 1;
          if log[i].ok then Successor(states[i], log[i].cfg, script[i]) == Some(cfg) else cfg == states[i].current)
  }

  lemma {:induction false} DueThenTried(log: seq<Attempt>, states: seq<State>, script: seq<Fate>, a: Attempt, s: State)
    requires Due(log, states, script, a.cfg)
    ensures forall i :: 0 <= i < |log + [a]| ==> Succession(log + [a], states + [s], script, i)
  {
    forall i | 0 <= i < |log + [a]| ensures Succession(log + [a], states + [s], script, i) {
      assert i < |log| ==> Succession(log, states, script, i);
    }
  }

  /**
   The loop over the whole script. `states` is what the manager holds at each attempt.
   It gives up on a failed start only at the very
   first one or when the fallback itself failed.
   */
  method RunLoop(m: Manager, runtime: Config, script: seq<Fate>)
    returns (log: seq<Attempt>, ghost states: seq<State>)
    requires Sound(m.View())
    modifies m
    ensures Sound(m.View()) && Recounts(log, script, runtime)
    ensures |states| == |log| && forall i :: 0 <= i < |log| ==> Succession(log, states, script, i)
    ensures script != [] ==> log != []
    ensures |log| < |script| && log != [] && !log[|log| - 1].ok ==> |log| == 1 || !log[|log| - 2].ok
  {
    var cfg, fallback := runtime, false;
    log, states := [], [];
    for turn := 0 to |script|
      invariant Sound(m.View()) && Poised(log, cfg, fallback, m.current)
      invariant Due(log, states, script, cfg)
      invariant |log| == turn && Recounts(log, script, runtime) && (log == [] ==> cfg == runtime)
    {
      var fate := script[turn];
      ChangeAll(m, fate.early);
      TryKeeps(log, script, runtime, cfg, fallback, m.current);
      ghost var before, tried, was, could := log, cfg, m.current, fallback;
      DueThenTried(log, states, script, Attempt(cfg, fate.starts), m.View());
      log, states := log + [Attempt(cfg, fate.starts)], states + [m.View()];
      if !fate.starts {
        if !fallback { return; }
        var recovered := m.RecoverFailedRestart();
        if recovered.None? { return; }
        cfg, fallback := recovered.value, false;
      } else {
        var next := Serve(m, cfg, fate);
        if next.None? { return; }
        cfg, fallback := next.value, true;
      }
      PoisedAgain(before, tried, fate.starts, could, was, cfg, m.current);
    }
  }
}
