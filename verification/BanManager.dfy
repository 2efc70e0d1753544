/**
 The automatic ban manager: a bounded table of recent violations per client and
 the bans they led to. Times are durations since Go's zero time, so `0` is the
 zero time and stands for "never".
 */
module BanManager {

  datatype AutoBan = AutoBan(enabled: bool, threshold: int, window: int, banDuration: nat, maxTracked: int)

  datatype Violation = Violation(times: seq<nat>, bannedUntil: nat, banViolations: nat, seen: nat, window: int)

  type Clients = map<string, Violation>

  const Unknown := Violation([], 0, 0, 0, 0)

  const SECOND := 1_000_000_000
  const MINUTE := 60 * SECOND

  /** The times at or after `cutoff`. */
  function Since(times: seq<nat>, cutoff: int): seq<nat> {
    if times == [] then []
    else Since(times[..|times| - 1], cutoff) + (if times[|times| - 1] < cutoff then [] else [times[|times| - 1]])
  }

  predicate Banned(v: Violation, now: nat) {
    now < v.bannedUntil
  }

  /** A ban that ran out with nothing recorded since. */
  predicate Finished(v: Violation, now: nat) {
    !Banned(v, now) && v.times == [] && v.bannedUntil != 0
  }

  // ----- cleaning up --------------------------------------------------------

  function WindowOf(v: Violation, cfg: AutoBan): int {
    if v.window <= 0 then cfg.window else v.window
  }

  function Trimmed(v: Violation, cfg: AutoBan, now: nat): Violation {
    if Banned(v, now) then v else v.(times := Since(v.times, now - WindowOf(v, cfg)))
  }

  predicate Forgettable(v: Violation, cfg: AutoBan, now: nat) {
    !Banned(v, now) && Trimmed(v, cfg, now).times == [] && now - v.seen > WindowOf(v, cfg)
  }

  function Cleaned(cs: Clients, cfg: AutoBan, now: nat): Clients {
    map c | c in cs && !Forgettable(cs[c], cfg, now) :: Trimmed(cs[c], cfg, now)
  }

  /** Midway: the clients in `todo` are still as they were. */
  function PartlyCleaned(before: Clients, todo: set<string>, cfg: AutoBan, now: nat): Clients {
    map c | c in before && (c in todo || !Forgettable(before[c], cfg, now)) ::
      if c in todo then before[c] else Trimmed(before[c], cfg, now)
  }

  lemma {:induction false} CleanOne(before: Clients, todo: set<string>, c: string, cfg: AutoBan, now: nat)
    requires c in todo && todo <= before.Keys
    ensures var cs := PartlyCleaned(before, todo, cfg, now);
            && c in cs && cs[c] == before[c]
            && PartlyCleaned(before, todo - {c}, cfg, now)
               == if Forgettable(before[c], cfg, now) then cs - {c} else cs[c := Trimmed(before[c], cfg, now)]
  {
  }

  function Interval(cfg: AutoBan): int {
    var half := if cfg.window >= 0 then cfg.window / 2 else -(-cfg.window / 2);
    if half < SECOND then SECOND else if half > MINUTE then MINUTE else half
  }

  predicate CleanupDue(lastCleanup: nat, cfg: AutoBan, now: nat) {
    lastCleanup == 0 || now < lastCleanup || now - lastCleanup >= Interval(cfg)
  }

  // ----- recording ----------------------------------------------------------

  /** The only entries that may make room: not banned, and none such was seen longer ago. */
  ghost predicate Evictable(cs: Clients, now: nat, victim: string) {
    && victim in cs && !Banned(cs[victim], now)
    && forall c :: c in cs && !Banned(cs[c], now) ==> cs[victim].seen <= cs[c].seen
  }

  ghost predicate AllBanned(cs: Clients, now: nat) {
    forall c :: c in cs ==> Banned(cs[c], now)
  }

  /** A violation of a tracked client: it bans when enough fall into the window. */
  function Struck(v: Violation, cfg: AutoBan, now: nat): (Violation, bool) {
    var times := Since(v.times, now - cfg.window) + [now];
    if |times| >= cfg.threshold
    then (Violation([], now + cfg.banDuration, |times|, now, cfg.window), true)
    else (Violation(times, v.bannedUntil, v.banViolations, now, cfg.window), false)
  }

  function Known(cs: Clients, client: string): Violation {
    if client in cs then cs[client] else Unknown
  }

  /** Recording a violation in the cleaned table: `victim` is who had to go, if anybody. */
  ghost predicate Recorded(cs: Clients, client: string, cfg: AutoBan, now: nat, after: Clients, banned: bool) {
    if client in cs || |cs| < cfg.maxTracked then
      var (v, b) := Struck(Known(cs, client), cfg, now);
      after == cs[client := v] && banned == b
    else if AllBanned(cs, now) then after == cs && !banned
    else exists victim :: Evictable(cs, now, victim)
                          && RecordedAfter(cs, victim, client, cfg, now, after, banned)
  }

  ghost predicate RecordedAfter(cs: Clients, victim: string, client: string, cfg: AutoBan, now: nat, after: Clients, banned: bool) {
    var (v, b) := Struck(Unknown, cfg, now);
    after == (cs - {victim})[client := v] && banned == b
  }

  class Manager {
    var clients: Clients
    var lastCleanup: nat

    constructor ()
      ensures clients == map[] && lastCleanup == 0
    {
      clients, lastCleanup := map[], 0;
    }

    method FilterTimes(times: seq<nat>, cutoff: int) returns (kept: seq<nat>)
      ensures kept == Since(times, cutoff)
    {
      kept := [];
      for i := 0 to |times|
        invariant kept == Since(times[..i], cutoff)
      {
        assert times[..i + 1][..i] == times[..i];
        if times[i] >= cutoff {
          kept := kept + [times[i]];
        }
      }
      assert times[..|times|] == times;
    }

    method CleanupInactive(cfg: AutoBan, now: nat)
      modifies this
      ensures if CleanupDue(old(lastCleanup), cfg, now)
              then lastCleanup == now && clients == Cleaned(old(clients), cfg, now)
              else lastCleanup == old(lastCleanup) && clients == old(clients)
    {
      if lastCleanup != 0 {
        var elapsed := now - lastCleanup;
        if 0 <= elapsed < Interval(cfg) {
          return;
        }
      }
      lastCleanup := now;
      ghost var before := clients;
      var todo := clients.Keys;
      while todo != {}
        invariant todo <= before.Keys && lastCleanup == now
        invariant clients == PartlyCleaned(before, todo, cfg, now)
        decreases todo
      {
        var client :| client in todo;
        CleanOne(before, todo, client, cfg, now);
        todo := todo - {client};
        var v := clients[client];
        if now >= v.bannedUntil {
          var window := if v.window <= 0 then cfg.window else v.window;
          var kept := FilterTimes(v.times, now - window);
          v := v.(times := kept);
          clients := clients[client := v];
          if v.times == [] && now - v.seen > window {
            clients := clients - {client};
          }
        }
      }
    }

    /** Make room by dropping one longest-unseen client that is not banned, whatever order the table is visited in. */
    method EvictOldestInactive(now: nat) returns (ok: bool, ghost victim: string)
      requires "" !in clients
      modifies `clients
      ensures ok <==> !AllBanned(old(clients), now)
      ensures ok ==> Evictable(old(clients), now, victim) && clients == old(clients) - {victim}
      ensures !ok ==> clients == old(clients)
    {
      var oldestKey, oldest := "", 0;
      var todo := clients.Keys;
      while todo != {}
        invariant todo <= clients.Keys && clients == old(clients)
        invariant oldestKey == "" ==> forall c :: c in clients && c !in todo ==> Banned(clients[c], now)
        invariant oldestKey != "" ==> oldestKey in clients && !Banned(clients[oldestKey], now) && clients[oldestKey].seen == oldest
        invariant oldestKey != "" ==> forall c :: c in clients && c !in todo && !Banned(clients[c], now) ==> oldest <= clients[c].seen
        decreases todo
      {
        var key :| key in todo;
        todo := todo - {key};
        var v := clients[key];
        if now >= v.bannedUntil && (oldestKey == "" || v.seen < oldest) {
          oldestKey, oldest := key, v.seen;
        }
      }
      victim := oldestKey;
      if oldestKey != "" {
        clients := clients - {oldestKey};
        return true, oldestKey;
      }
      ok := false;
    }

    method IsBanned(client: string, now: nat) returns (banned: bool)
      modifies `clients
      ensures banned == Banned(Known(old(clients), client), now)
      ensures clients == Asked(old(clients), client, now)
    {
      if client !in clients {
        return false;
      }
      var v := clients[client];
      if now >= v.bannedUntil {
        if v.times == [] && v.bannedUntil != 0 {
          clients := clients - {client};
        }
        return false;
      }
      clients := clients[client := v.(seen := now)];
      banned := true;
    }

    method RecordViolation(client: string, cfg: AutoBan, now: nat) returns (banned: bool)
      requires "" !in clients
      modifies this
      ensures "" !in clients
      ensures !cfg.enabled || client == "" ==> !banned && clients == old(clients) && lastCleanup == old(lastCleanup)
      ensures cfg.enabled && client != "" ==>
                var due := CleanupDue(old(lastCleanup), cfg, now);
                && lastCleanup == (if due then now else old(lastCleanup))
                && Recorded(if due then Cleaned(old(clients), cfg, now) else old(clients), client, cfg, now, clients, banned)
    {
      if !cfg.enabled || client == "" {
        return false;
      }
      CleanupInactive(cfg, now);
      ghost var cs := clients;
      if client !in clients {
        if |clients| >= cfg.maxTracked {
          var ok, victim := EvictOldestInactive(now);
          if !ok {
            return false;
          }
          banned := Strike(client, cfg, now);
          assert Known(cs - {victim}, client) == Unknown;
          assert RecordedAfter(cs, victim, client, cfg, now, clients, banned);
          return;
        }
      }
      banned := Strike(client, cfg, now);
    }

    method Strike(client: string, cfg: AutoBan, now: nat) returns (banned: bool)
      modifies `clients
      ensures var (v, b) := Struck(Known(old(clients), client), cfg, now);
              clients == old(clients)[client := v] && banned == b
    {
      var v := if client in clients then clients[client] else Unknown;
      var kept := FilterTimes(v.times, now - cfg.window);
      v := v.(seen := now, window := cfg.window, times := kept + [now]);
      banned := |v.times| >= cfg.threshold;
      if banned {
        v := v.(bannedUntil := now + cfg.banDuration, banViolations := |v.times|, times := []);
      }
      clients := clients[client := v];
    }

    /** Number of active bans; finished ones are dropped on the way. */
    method ActiveCount(now: nat) returns (n: nat)
      modifies `clients
      ensures clients == Pruned(old(clients), now)
      ensures n == |set c | c in old(clients) && Banned(old(clients)[c], now)|
    {
      n := 0;
      ghost var before := clients;
      ghost var active: set<string> := {};
      var todo := clients.Keys;
      while todo != {}
        invariant todo <= before.Keys
        invariant active == set c | c in before && c !in todo && Banned(before[c], now)
        invariant n == |active|
        invariant clients == map c | c in before && (c in todo || !Finished(before[c], now)) :: before[c]
        decreases todo
      {
        var client :| client in todo;
        todo := todo - {client};
        var v := clients[client];
        if now < v.bannedUntil {
          n, active := n + 1, active + {client};
        } else if v.times == [] && v.bannedUntil != 0 {
          clients := clients - {client};
        }
      }
      assert active == set c | c in before && Banned(before[c], now);
    }
  }

  /** Asking about a client drops a finished ban and notes that a banned client was seen. */
  function Asked(cs: Clients, client: string, now: nat): Clients {
    if client !in cs then cs
    else if Banned(cs[client], now) then cs[client := cs[client].(seen := now)]
    else if Finished(cs[client], now) then cs - {client}
    else cs
  }

  function Pruned(cs: Clients, now: nat): Clients {
    map c | c in cs && !Finished(cs[c], now) :: cs[c]
  }

  // ----- runs ---------------------------------------------------------------

  datatype State = State(clients: Clients, lastCleanup: nat)

  datatype Op = Violate(client: string, at: nat) | Ask(client: string, at: nat) | Prune(at: nat)

  /** Violations count only when automatic bans are on and the client is known by name. */
  predicate Counts(cfg: AutoBan, client: string) {
    cfg.enabled && client != ""
  }

  /** What one call may do under a fixed setting. */
  ghost predicate Step(s: State, op: Op, cfg: AutoBan, after: State, answer: bool) {
    match op
    case Violate(c, now) =>
      if !Counts(cfg, c) then after == s && !answer
      else
        && after.lastCleanup == (if CleanupDue(s.lastCleanup, cfg, now) then now else s.lastCleanup)
        && Recorded(Swept(s, cfg, now), c, cfg, now, after.clients, answer)
    case Ask(c, now) =>
      after == State(Asked(s.clients, c, now), s.lastCleanup) && answer == Banned(Known(s.clients, c), now)
    case Prune(now) =>
      after == State(Pruned(s.clients, now), s.lastCleanup) && !answer
  }

  function Swept(s: State, cfg: AutoBan, now: nat): Clients {
    if CleanupDue(s.lastCleanup, cfg, now) then Cleaned(s.clients, cfg, now) else s.clients
  }

  ghost predicate Follows(run: seq<State>, ops: seq<Op>, answers: seq<bool>, cfg: AutoBan, i: int)
    requires |run| == |ops| + 1 && |answers| == |ops|
  {
    0 <= i < |ops| && Step(run[i], ops[i], cfg, run[i + 1], answers[i])
  }

  ghost predicate IsRun(run: seq<State>, ops: seq<Op>, answers: seq<bool>, cfg: AutoBan) {
    && |run| == |ops| + 1 && |answers| == |ops|
    && run[0] == State(map[], 0)
    && (forall i :: 0 <= i < |ops| ==> Follows(run, ops, answers, cfg, i))
    && forall i, j :: 0 <= i <= j < |ops| ==> ops[i].at <= ops[j].at
  }

  // ----- the table stays bounded --------------------------------------------

  lemma {:induction false} SubmapSize(a: Clients, b: Clients)
    requires a.Keys <= b.Keys
    ensures |a| <= |b|
  {
    assert b.Keys == a.Keys + (b.Keys - a.Keys);
    assert |a.Keys + (b.Keys - a.Keys)| == |a.Keys| + |b.Keys - a.Keys|;
  }

  lemma {:induction false} RecordedStaysWithin(cs: Clients, client: string, cfg: AutoBan, now: nat, after: Clients, banned: bool)
    requires Recorded(cs, client, cfg, now, after, banned) && |cs| <= cfg.maxTracked
    ensures |after| <= cfg.maxTracked
  {
    if client in cs || |cs| < cfg.maxTracked {
      PutGrows(cs, client, after[client]);
    } else if !AllBanned(cs, now) {
      var victim :| Evictable(cs, now, victim) && RecordedAfter(cs, victim, client, cfg, now, after, banned);
      SwapKey(cs, victim, client, after);
    }
  }

  lemma {:induction false} PutGrows(cs: Clients, client: string, v: Violation)
    ensures |cs[client := v]| <= |cs| + (if client in cs then 0 else 1)
  {
    assert cs[client := v].Keys == cs.Keys + {client};
    assert client in cs ==> cs.Keys + {client} == cs.Keys;
  }

  lemma {:induction false} SwapKey(cs: Clients, victim: string, client: string, after: Clients)
    requires victim in cs && after.Keys == cs.Keys - {victim} + {client}
    ensures |after| <= |cs|
  {
    assert |cs.Keys - {victim}| == |cs.Keys| - 1;
    assert |after.Keys| <= |cs.Keys - {victim}| + 1;
  }

  lemma {:induction false} StepStaysWithin(s: State, op: Op, cfg: AutoBan, after: State, answer: bool)
    requires Step(s, op, cfg, after, answer) && |s.clients| <= cfg.maxTracked
    ensures |after.clients| <= cfg.maxTracked
  {
    match op
    case Violate(c, now) =>
      if Counts(cfg, c) {
        SubmapSize(Swept(s, cfg, now), s.clients);
        RecordedStaysWithin(Swept(s, cfg, now), c, cfg, now, after.clients, answer);
      }
    case Ask(c, now) =>
      SubmapSize(after.clients, s.clients);
    case Prune(now) =>
      SubmapSize(after.clients, s.clients);
  }

  /** The table never holds more clients than configured. */
  lemma {:induction false} TableBounded(run: seq<State>, ops: seq<Op>, answers: seq<bool>, cfg: AutoBan, i: nat)
    requires IsRun(run, ops, answers, cfg) && cfg.maxTracked >= 0 && i < |run|
    ensures |run[i].clients| <= cfg.maxTracked
  {
    if i > 0 {
      TableBounded(run, ops, answers, cfg, i - 1);
      assert Follows(run, ops, answers, cfg, i - 1);
      StepStaysWithin(run[i - 1], ops[i - 1], cfg, run[i], answers[i - 1]);
    }
  }

  // ----- bans are kept ------------------------------------------------------

  /** No ban reaches further than one ban duration from now. */
  predicate Reach(cs: Clients, client: string, cfg: AutoBan, now: nat) {
    Known(cs, client).bannedUntil <= now + cfg.banDuration
  }

  lemma {:induction false} RecordedKeepsBan(
    cs: Clients, client: string, cfg: AutoBan, now: nat, after: Clients, banned: bool, c: string)
    requires Recorded(cs, client, cfg, now, after, banned) && Reach(cs, c, cfg, now)
    ensures Reach(after, c, cfg, now)
    ensures Banned(Known(cs, c), now) ==> Known(after, c).bannedUntil >= Known(cs, c).bannedUntil
  {
    if client !in cs && |cs| >= cfg.maxTracked && !AllBanned(cs, now) {
      var victim :| Evictable(cs, now, victim) && RecordedAfter(cs, victim, client, cfg, now, after, banned);
    }
  }

  lemma {:induction false} StepKeepsBan(s: State, op: Op, cfg: AutoBan, after: State, answer: bool, c: string)
    requires Step(s, op, cfg, after, answer) && Reach(s.clients, c, cfg, op.at)
    ensures Reach(after.clients, c, cfg, op.at)
    ensures Banned(Known(s.clients, c), op.at) ==>
              Known(after.clients, c).bannedUntil >= Known(s.clients, c).bannedUntil
  {
    if op.Violate? && Counts(cfg, op.client) {
      RecordedKeepsBan(Swept(s, cfg, op.at), op.client, cfg, op.at, after.clients, answer, c);
    }
  }

  lemma {:induction false} RunReach(run: seq<State>, ops: seq<Op>, answers: seq<bool>, cfg: AutoBan, i: nat, c: string)
    requires IsRun(run, ops, answers, cfg) && i < |ops|
    ensures Reach(run[i].clients, c, cfg, ops[i].at)
  {
    if i > 0 {
      RunReach(run, ops, answers, cfg, i - 1, c);
      assert Follows(run, ops, answers, cfg, i - 1);
      StepKeepsBan(run[i - 1], ops[i - 1], cfg, run[i], answers[i - 1], c);
    }
  }

  /** Until it runs out no ban is lost or shortened, whatever other clients do. */
  lemma {:induction false} NoActiveBanIsLost(
    run: seq<State>, ops: seq<Op>, answers: seq<bool>, cfg: AutoBan, i: nat, j: nat, c: string)
    requires IsRun(run, ops, answers, cfg) && i <= j < |run|
    requires forall k :: i <= k < j ==> Banned(Known(run[i].clients, c), ops[k].at)
    ensures Known(run[j].clients, c).bannedUntil >= Known(run[i].clients, c).bannedUntil
  {
    if i < j {
      NoActiveBanIsLost(run, ops, answers, cfg, i, j - 1, c);
      RunReach(run, ops, answers, cfg, j - 1, c);
      assert Follows(run, ops, answers, cfg, j - 1);
      StepKeepsBan(run[j - 1], ops[j - 1], cfg, run[j], answers[j - 1], c);
    }
  }

  // ----- the simple specification -------------------------------------------

  /** One client's story without a table: violations since its last ban, and when that ban ends. */
  datatype Story = Story(pending: seq<nat>, until: nat)

  function Told(h: Story, op: Op, cfg: AutoBan, c: string): (Story, bool) {
    match op
    case Violate(d, now) =>
      if d != c || !Counts(cfg, c) then (h, false)
      else if |Since(h.pending, now - cfg.window)| + 1 >= cfg.threshold then (Story([], now + cfg.banDuration), true)
      else (Story(h.pending + [now], h.until), false)
    case Ask(d, now) => (h, d == c && now < h.until)
    case Prune(_) => (h, false)
  }

  predicate Alike(v: Violation, h: Story, cfg: AutoBan, now: nat) {
    && Since(v.times, now - cfg.window) == Since(h.pending, now - cfg.window)
    && (Banned(v, now) || now < h.until ==> v.bannedUntil == h.until)
  }

  /** Table and story agree about everything that can still matter. */
  predicate Agree(cs: Clients, h: Story, cfg: AutoBan, c: string, now: nat) {
    Alike(Known(cs, c), h, cfg, now) && (c in cs ==> cs[c].window == cfg.window)
  }

  lemma {:induction false} SinceTwice(times: seq<nat>, early: int, late: int)
    requires early <= late
    ensures Since(Since(times, early), late) == Since(times, late)
  {
    if times != [] {
      var front, t := times[..|times| - 1], times[|times| - 1];
      SinceTwice(front, early, late);
      var kept := Since(front, early);
      if t >= early {
        assert Since(times, early) == kept + [t] && (kept + [t])[..|kept|] == kept;
      } else {
        assert Since(times, early) == kept;
      }
    }
  }

  lemma {:induction false} SinceAppend(times: seq<nat>, t: nat, cutoff: int)
    ensures Since(times + [t], cutoff) == Since(times, cutoff) + (if t < cutoff then [] else [t])
  {
    assert (times + [t])[..|times|] == times;
  }

  lemma {:induction false} AgreeLater(cs: Clients, h: Story, cfg: AutoBan, c: string, now: nat, later: nat)
    requires Agree(cs, h, cfg, c, now) && now <= later
    ensures Agree(cs, h, cfg, c, later)
  {
    var v := Known(cs, c);
    SinceTwice(v.times, now - cfg.window, later - cfg.window);
    SinceTwice(h.pending, now - cfg.window, later - cfg.window);
  }

  lemma {:induction false} CleaningKeepsAgreement(cs: Clients, h: Story, cfg: AutoBan, c: string, now: nat)
    requires Agree(cs, h, cfg, c, now)
    ensures Agree(Cleaned(cs, cfg, now), h, cfg, c, now)
  {
    SinceTwice(Known(cs, c).times, now - cfg.window, now - cfg.window);
    assert Since([], now - cfg.window) == [];
  }

  /** Dropping old times before recording a new one makes no difference inside the window. */
  lemma {:induction false} SameRecent(times: seq<nat>, pending: seq<nat>, now: nat, cutoff: int)
    requires Since(times, cutoff) == Since(pending, cutoff)
    ensures Since(Since(times, cutoff) + [now], cutoff) == Since(pending + [now], cutoff)
  {
    SinceAppend(Since(times, cutoff), now, cutoff);
    SinceAppend(pending, now, cutoff);
    SinceTwice(times, cutoff, cutoff);
  }

  lemma {:induction false} StruckAlike(was: Violation, h: Story, cfg: AutoBan, c: string, now: nat)
    requires Alike(was, h, cfg, now) && Counts(cfg, c)
    ensures var (v, banned) := Struck(was, cfg, now);
            var (h', told) := Told(h, Violate(c, now), cfg, c);
            banned == told && Alike(v, h', cfg, now) && v.window == cfg.window
  {
    var cutoff := now - cfg.window;
    assert |Since(was.times, cutoff) + [now]| == |Since(h.pending, cutoff)| + 1;
    SameRecent(was.times, h.pending, now, cutoff);
  }

  /** A violation bans in the table exactly when it bans in the story. */
  lemma {:induction false} StrikeAgrees(cs: Clients, h: Story, cfg: AutoBan, c: string, now: nat)
    requires Agree(cs, h, cfg, c, now) && Counts(cfg, c)
    ensures var (v, banned) := Struck(Known(cs, c), cfg, now);
            var (h', told) := Told(h, Violate(c, now), cfg, c);
            banned == told && Agree(cs[c := v], h', cfg, c, now)
  {
    StruckAlike(Known(cs, c), h, cfg, c, now);
    var v := Struck(Known(cs, c), cfg, now).0;
    assert Known(cs[c := v], c) == v;
  }

  lemma {:induction false} ViolationAgrees(cs: Clients, d: string, now: nat, cfg: AutoBan, after: Clients, answer: bool, h: Story, c: string)
    requires Agree(cs, h, cfg, c, now) && Counts(cfg, d) && Recorded(cs, d, cfg, now, after, answer)
    requires d in cs || |cs| < cfg.maxTracked
    ensures Agree(after, Told(h, Violate(d, now), cfg, c).0, cfg, c, now)
    ensures d == c ==> answer == Told(h, Violate(d, now), cfg, c).1
  {
    if d == c {
      StrikeAgrees(cs, h, cfg, c, now);
    } else {
      assert Known(after, c) == Known(cs, c);
    }
  }

  lemma {:induction false} AskingAgrees(cs: Clients, d: string, now: nat, cfg: AutoBan, h: Story, c: string)
    requires Agree(cs, h, cfg, c, now)
    ensures Agree(Asked(cs, d, now), h, cfg, c, now)
    ensures Banned(Known(cs, c), now) == (now < h.until)
  {
    var v, after := Known(cs, c), Known(Asked(cs, d, now), c);
    assert after == v || after == v.(seen := now) || (after == Unknown && Finished(v, now));
  }

  lemma {:induction false} PruningAgrees(cs: Clients, now: nat, cfg: AutoBan, h: Story, c: string)
    requires Agree(cs, h, cfg, c, now)
    ensures Agree(Pruned(cs, now), h, cfg, c, now)
  {
    var v, after := Known(cs, c), Known(Pruned(cs, now), c);
    assert after == v || (after == Unknown && Finished(v, now));
  }

  lemma {:induction false} StepAgrees(s: State, op: Op, cfg: AutoBan, after: State, answer: bool, h: Story, c: string)
    requires Step(s, op, cfg, after, answer) && Agree(s.clients, h, cfg, c, op.at)
    requires op.Violate? ==> op.client in Swept(s, cfg, op.at) || |Swept(s, cfg, op.at)| < cfg.maxTracked
    ensures Agree(after.clients, Told(h, op, cfg, c).0, cfg, c, op.at)
    ensures !op.Prune? && op.client == c ==> answer == Told(h, op, cfg, c).1
  {
    match op
    case Violate(d, now) =>
      CleaningKeepsAgreement(s.clients, h, cfg, c, now);
      if Counts(cfg, d) {
        ViolationAgrees(Swept(s, cfg, now), d, now, cfg, after.clients, answer, h, c);
      }
    case Ask(d, now) => AskingAgrees(s.clients, d, now, cfg, h, c);
    case Prune(now) => PruningAgrees(s.clients, now, cfg, h, c);
  }

  function ClientsOf(ops: seq<Op>): set<string> {
    set i | 0 <= i < |ops| && !ops[i].Prune? :: ops[i].client
  }

  lemma {:induction false} OnlyKnownClients(run: seq<State>, ops: seq<Op>, answers: seq<bool>, cfg: AutoBan, i: nat)
    requires IsRun(run, ops, answers, cfg) && i < |run|
    ensures run[i].clients.Keys <= ClientsOf(ops)
  {
    if i > 0 {
      OnlyKnownClients(run, ops, answers, cfg, i - 1);
      var s, op := run[i - 1], ops[i - 1];
      assert Follows(run, ops, answers, cfg, i - 1);
      if op.Violate? && Counts(cfg, op.client) {
        assert op.client in ClientsOf(ops);
        NewKeys(Swept(s, cfg, op.at), op.client, cfg, op.at, run[i].clients, answers[i - 1]);
      }
    }
  }

  lemma {:induction false} NewKeys(cs: Clients, client: string, cfg: AutoBan, now: nat, after: Clients, banned: bool)
    requires Recorded(cs, client, cfg, now, after, banned)
    ensures after.Keys <= cs.Keys + {client}
  {
    if client !in cs && |cs| >= cfg.maxTracked && !AllBanned(cs, now) {
      var victim :| Evictable(cs, now, victim) && RecordedAfter(cs, victim, client, cfg, now, after, banned);
    }
  }

  lemma {:induction false} RoomForAll(cs: Clients, client: string, all: set<string>)
    requires cs.Keys <= all && client in all && client !in cs
    ensures |cs| < |all|
  {
    assert all == (cs.Keys + {client}) + (all - cs.Keys - {client});
    assert |cs.Keys + {client}| == |cs| + 1;
  }

  ghost predicate IsStory(story: seq<Story>, ops: seq<Op>, cfg: AutoBan, c: string) {
    && |story| == |ops| + 1
    && story[0] == Story([], 0)
    && forall i :: 0 <= i < |ops| ==> story[i + 1] == Told(story[i], ops[i], cfg, c).0
  }

  lemma {:induction false} RunAgrees(
    run: seq<State>, ops: seq<Op>, answers: seq<bool>, cfg: AutoBan, story: seq<Story>, c: string, i: nat)
    requires IsRun(run, ops, answers, cfg) && IsStory(story, ops, cfg, c)
    requires |ClientsOf(ops)| <= cfg.maxTracked && i < |ops|
    ensures Agree(run[i].clients, story[i], cfg, c, ops[i].at)
    ensures ops[i].Violate? ==> ops[i].client in Swept(run[i], cfg, ops[i].at) || |Swept(run[i], cfg, ops[i].at)| < cfg.maxTracked
  {
    if i > 0 {
      RunAgrees(run, ops, answers, cfg, story, c, i - 1);
      assert Follows(run, ops, answers, cfg, i - 1);
      assert story[(i - 1) + 1] == Told(story[i - 1], ops[i - 1], cfg, c).0;
      StepAgrees(run[i - 1], ops[i - 1], cfg, run[i], answers[i - 1], story[i - 1], c);
      AgreeLater(run[i].clients, story[i], cfg, c, ops[i - 1].at, ops[i].at);
    }
    if ops[i].Violate? {
      OnlyKnownClients(run, ops, answers, cfg, i);
      var cs := Swept(run[i], cfg, ops[i].at);
      assert cs.Keys <= run[i].clients.Keys && ops[i].client in ClientsOf(ops);
      if ops[i].client !in cs {
        RoomForAll(cs, ops[i].client, ClientsOf(ops));
      }
    }
  }

  /**
   While all clients fit into the table, it answers every call about a client as
   the client's own story does: a violation bans exactly when, with it, enough
   violations since the last ban lie in the trailing window.
   */
  lemma {:induction false} TableRefinesStory(
    run: seq<State>, ops: seq<Op>, answers: seq<bool>, cfg: AutoBan, story: seq<Story>, c: string, i: nat)
    requires IsRun(run, ops, answers, cfg) && IsStory(story, ops, cfg, c)
    requires |ClientsOf(ops)| <= cfg.maxTracked && i < |ops| && !ops[i].Prune? && ops[i].client == c
    ensures answers[i] == Told(story[i], ops[i], cfg, c).1
  {
    RunAgrees(run, ops, answers, cfg, story, c, i);
    assert Follows(run, ops, answers, cfg, i);
    StepAgrees(run[i], ops[i], cfg, run[i + 1], answers[i], story[i], c);
  }

  // ----- what the answers are, from the calls alone -------------------------

  /** The number of times at or after the cutoff is the number of places that hold such a time. */
  lemma {:induction false} SinceCounts(times: seq<nat>, cutoff: int)
    ensures |Since(times, cutoff)| == |set i | 0 <= i < |times| && times[i] >= cutoff|
    ensures forall t :: t in Since(times, cutoff) <==> t in times && t >= cutoff
  {
    var now := set i | 0 <= i < |times| && times[i] >= cutoff;
    if times == [] {
      assert now == {};
    } else {
      var front, last := times[..|times| - 1], |times| - 1;
      SinceCounts(front, cutoff);
      var before := set i | 0 <= i < |front| && front[i] >= cutoff;
      assert now == if times[last] >= cutoff then before + {last} else before;
      assert times == front + [times[last]];
    }
  }

  /** Call `j` banned client `c`. */
  ghost predicate Bans(ops: seq<Op>, answers: seq<bool>, c: string, j: int) {
    0 <= j < |ops| && j < |answers| && ops[j].Violate? && ops[j].client == c && answers[j]
  }

  /** Call `k`, a violation of `c` at or after the cutoff that no ban before call `i` has answered. */
  ghost predicate Open(ops: seq<Op>, answers: seq<bool>, c: string, cutoff: int, i: nat, k: int) {
    && 0 <= k < i <= |ops| && ops[k].Violate? && ops[k].client == c && ops[k].at >= cutoff
    && forall j :: k <= j < i ==> !Bans(ops, answers, c, j)
  }

  ghost function OpenOnes(ops: seq<Op>, answers: seq<bool>, c: string, cutoff: int, i: nat): set<int> {
    set k | 0 <= k < i && Open(ops, answers, c, cutoff, i, k)
  }

  lemma {:induction false} OpenStep(ops: seq<Op>, answers: seq<bool>, c: string, cutoff: int, i: nat)
    requires i < |ops| == |answers|
    ensures var n, n' := |OpenOnes(ops, answers, c, cutoff, i)|, |OpenOnes(ops, answers, c, cutoff, i + 1)|;
            if Bans(ops, answers, c, i) then n' == 0
            else n' == n + (if ops[i].Violate? && ops[i].client == c && ops[i].at >= cutoff then 1 else 0)
  {
    var was, open := OpenOnes(ops, answers, c, cutoff, i), OpenOnes(ops, answers, c, cutoff, i + 1);
    if Bans(ops, answers, c, i) {
      assert open == {};
    } else {
      forall k | 0 <= k < i ensures k in open <==> k in was {
        OpenKept(ops, answers, c, cutoff, i, k);
      }
      if ops[i].Violate? && ops[i].client == c && ops[i].at >= cutoff {
        assert Open(ops, answers, c, cutoff, i + 1, i);
        assert open == was + {i};
      } else {
        assert !Open(ops, answers, c, cutoff, i + 1, i);
        assert open == was;
      }
    }
  }

  lemma {:induction false} OpenKept(ops: seq<Op>, answers: seq<bool>, c: string, cutoff: int, i: nat, k: nat)
    requires k < i < |ops| && !Bans(ops, answers, c, i)
    ensures Open(ops, answers, c, cutoff, i + 1, k) <==> Open(ops, answers, c, cutoff, i, k)
  {
  }

  /** What the story holds, in terms of the calls and their answers. */
  ghost predicate StoryIs(h: Story, ops: seq<Op>, answers: seq<bool>, cfg: AutoBan, c: string, i: nat) {
    && (forall cutoff :: |Since(h.pending, cutoff)| == |OpenOnes(ops, answers, c, cutoff, i)|)
    && (forall j :: 0 <= j < i && Bans(ops, answers, c, j) ==> ops[j].at + cfg.banDuration <= h.until)
    && (h.until == 0 || exists j :: 0 <= j < i && Bans(ops, answers, c, j) && ops[j].at + cfg.banDuration == h.until)
  }

  lemma {:induction false} PendingIs(h: Story, h': Story, ops: seq<Op>, answers: seq<bool>, cfg: AutoBan, c: string, i: nat, cutoff: int)
    requires i < |ops| == |answers| && h' == Told(h, ops[i], cfg, c).0
    requires !ops[i].Prune? && ops[i].client == c ==> answers[i] == Told(h, ops[i], cfg, c).1
    requires |Since(h.pending, cutoff)| == |OpenOnes(ops, answers, c, cutoff, i)|
    requires Counts(cfg, c)
    ensures |Since(h'.pending, cutoff)| == |OpenOnes(ops, answers, c, cutoff, i + 1)|
  {
    OpenStep(ops, answers, c, cutoff, i);
    SinceAppend(h.pending, ops[i].at, cutoff);
  }

  lemma {:induction false} UntilIs(h: Story, h': Story, ops: seq<Op>, answers: seq<bool>, cfg: AutoBan, c: string, i: nat)
    requires i < |ops| == |answers| && h' == Told(h, ops[i], cfg, c).0
    requires !ops[i].Prune? && ops[i].client == c ==> answers[i] == Told(h, ops[i], cfg, c).1
    requires forall j :: 0 <= j < i ==> ops[j].at <= ops[i].at
    requires forall j :: 0 <= j < i && Bans(ops, answers, c, j) ==> ops[j].at + cfg.banDuration <= h.until
    requires h.until == 0 || exists j :: 0 <= j < i && Bans(ops, answers, c, j) && ops[j].at + cfg.banDuration == h.until
    ensures forall j :: 0 <= j < i + 1 && Bans(ops, answers, c, j) ==> ops[j].at + cfg.banDuration <= h'.until
    ensures h'.until == 0 || exists j :: 0 <= j < i + 1 && Bans(ops, answers, c, j) && ops[j].at + cfg.banDuration == h'.until
  {
    if Bans(ops, answers, c, i) {
      assert h'.until == ops[i].at + cfg.banDuration;
    } else {
      assert h'.until == h.until;
    }
  }

  ghost predicate NoneLater(ops: seq<Op>, i: nat)
    requires i < |ops|
  {
    forall j :: 0 <= j < i ==> ops[j].at <= ops[i].at
  }

  lemma {:induction false} StoryStep(h: Story, h': Story, ops: seq<Op>, answers: seq<bool>, cfg: AutoBan, c: string, i: nat)
    requires i < |ops| == |answers| && h' == Told(h, ops[i], cfg, c).0 && Counts(cfg, c)
    requires !ops[i].Prune? && ops[i].client == c ==> answers[i] == Told(h, ops[i], cfg, c).1
    requires NoneLater(ops, i) && StoryIs(h, ops, answers, cfg, c, i)
    ensures StoryIs(h', ops, answers, cfg, c, i + 1)
  {
    forall cutoff ensures |Since(h'.pending, cutoff)| == |OpenOnes(ops, answers, c, cutoff, i + 1)| {
      PendingIs(h, h', ops, answers, cfg, c, i, cutoff);
    }
    UntilIs(h, h', ops, answers, cfg, c, i);
  }

  lemma {:induction false} StoryStarts(ops: seq<Op>, answers: seq<bool>, cfg: AutoBan, c: string)
    ensures StoryIs(Story([], 0), ops, answers, cfg, c, 0)
  {
    assert forall cutoff :: OpenOnes(ops, answers, c, cutoff, 0) == {};
  }

  lemma {:induction false} StoryFollows(
    run: seq<State>, ops: seq<Op>, answers: seq<bool>, cfg: AutoBan, story: seq<Story>, c: string, i: nat)
    requires IsRun(run, ops, answers, cfg) && IsStory(story, ops, cfg, c) && |ClientsOf(ops)| <= cfg.maxTracked && i < |ops|
    ensures story[i + 1] == Told(story[i], ops[i], cfg, c).0
    ensures !ops[i].Prune? && ops[i].client == c ==> answers[i] == Told(story[i], ops[i], cfg, c).1
    ensures NoneLater(ops, i)
  {
    if !ops[i].Prune? && ops[i].client == c {
      TableRefinesStory(run, ops, answers, cfg, story, c, i);
    }
  }

  lemma {:induction false} StoryMeans(
    run: seq<State>, ops: seq<Op>, answers: seq<bool>, cfg: AutoBan, story: seq<Story>, c: string, i: nat)
    requires IsRun(run, ops, answers, cfg) && IsStory(story, ops, cfg, c) && |ClientsOf(ops)| <= cfg.maxTracked
    requires i < |run| && Counts(cfg, c)
    ensures StoryIs(story[i], ops, answers, cfg, c, i)
  {
    if i == 0 {
      StoryStarts(ops, answers, cfg, c);
    } else {
      var k := i - 1;
      StoryFollows(run, ops, answers, cfg, story, c, k);
      StoryMeans(run, ops, answers, cfg, story, c, k);
      StoryStep(story[k], story[i], ops, answers, cfg, c, k);
    }
  }

  lemma {:induction false} StoryExists(ops: seq<Op>, cfg: AutoBan, c: string) returns (story: seq<Story>)
    ensures IsStory(story, ops, cfg, c)
  {
    if ops == [] {
      story := [Story([], 0)];
    } else {
      var n := |ops| - 1;
      var before := StoryExists(ops[..n], cfg, c);
      story := before + [Told(before[n], ops[n], cfg, c).0];
      forall i | 0 <= i < |ops| ensures story[i + 1] == Told(story[i], ops[i], cfg, c).0 {
        assert i < n ==> before[i + 1] == Told(before[i], ops[..n][i], cfg, c).0;
      }
    }
  }

  /**
   While all clients fit into the table, a violation bans exactly when, with it,
   at least the threshold of the client's violations since its last ban lie in
   the trailing window.
   */
  lemma {:induction false} BansIff(run: seq<State>, ops: seq<Op>, answers: seq<bool>, cfg: AutoBan, i: nat)
    requires IsRun(run, ops, answers, cfg) && |ClientsOf(ops)| <= cfg.maxTracked
    requires i < |ops| && ops[i].Violate?
    ensures answers[i] <==> Counts(cfg, ops[i].client)
                            && |OpenOnes(ops, answers, ops[i].client, ops[i].at - cfg.window, i)| + 1 >= cfg.threshold
  {
    var c := ops[i].client;
    var story := StoryExists(ops, cfg, c);
    TableRefinesStory(run, ops, answers, cfg, story, c, i);
    if Counts(cfg, c) {
      StoryMeans(run, ops, answers, cfg, story, c, i);
    }
  }

  /** And a client is told it is banned exactly while a ban of its own has not run out. */
  lemma {:induction false} AskedIff(run: seq<State>, ops: seq<Op>, answers: seq<bool>, cfg: AutoBan, i: nat)
    requires IsRun(run, ops, answers, cfg) && |ClientsOf(ops)| <= cfg.maxTracked
    requires i < |ops| && ops[i].Ask? && Counts(cfg, ops[i].client)
    ensures answers[i] <==> exists j :: 0 <= j < i && Bans(ops, answers, ops[i].client, j) && ops[i].at < ops[j].at + cfg.banDuration
  {
    var c := ops[i].client;
    var story := StoryExists(ops, cfg, c);
    TableRefinesStory(run, ops, answers, cfg, story, c, i);
    StoryMeans(run, ops, answers, cfg, story, c, i);
  }

  /** A ban is recorded with the number of violations that led to it and the moment it ends. */
  lemma {:induction false} BanIsRecorded(run: seq<State>, ops: seq<Op>, answers: seq<bool>, cfg: AutoBan, i: nat)
    requires IsRun(run, ops, answers, cfg) && |ClientsOf(ops)| <= cfg.maxTracked
    requires i < |ops| && ops[i].Violate? && answers[i]
    ensures var v := Known(run[i + 1].clients, ops[i].client);
            && v.banViolations == |OpenOnes(ops, answers, ops[i].client, ops[i].at - cfg.window, i)| + 1
            && v.bannedUntil == ops[i].at + cfg.banDuration && v.times == []
  {
    var c, now := ops[i].client, ops[i].at;
    var story := StoryExists(ops, cfg, c);
    assert Follows(run, ops, answers, cfg, i);
    RunAgrees(run, ops, answers, cfg, story, c, i);
    StoryMeans(run, ops, answers, cfg, story, c, i);
    CleaningKeepsAgreement(run[i].clients, story[i], cfg, c, now);
  }

  // ----- nothing lingers ----------------------------------------------------

  /** A sweep leaves a client out exactly when it is not banned, has no violation in its window and was not seen within it. */
  lemma {:induction false} CleanedIff(cs: Clients, cfg: AutoBan, now: nat, c: string)
    requires c in cs
    ensures var v := cs[c];
            var cutoff := now - (if v.window <= 0 then cfg.window else v.window);
            c in Cleaned(cs, cfg, now) <==> now < v.bannedUntil || v.seen >= cutoff || exists t :: t in v.times && t >= cutoff
  {
    var v := cs[c];
    var cutoff := now - WindowOf(v, cfg);
    SinceCounts(v.times, cutoff);
    if Since(v.times, cutoff) != [] {
      assert Since(v.times, cutoff)[0] in Since(v.times, cutoff);
    }
  }

  /** The pause between sweeps is half the window, but at least a second and at most a minute. */
  lemma {:induction false} IntervalIs(cfg: AutoBan)
    ensures SECOND <= Interval(cfg) <= MINUTE
    ensures cfg.window >= 2 * SECOND ==> 2 * Interval(cfg) <= cfg.window
    ensures Interval(cfg) < MINUTE ==> cfg.window < 2 * Interval(cfg) + 2
  {
  }

  /** At the last sweep `v` was banned, or has been seen in its window. */
  predicate Lively(v: Violation, cfg: AutoBan, swept: nat) {
    && v.window == cfg.window && (forall t :: t in v.times ==> t <= v.seen)
    && (Banned(v, swept) || v.seen >= swept - cfg.window)
  }

  ghost predicate AllLively(cs: Clients, cfg: AutoBan, swept: nat) {
    forall c :: c in cs ==> Lively(cs[c], cfg, swept)
  }

  lemma {:induction false} SweepLeavesLively(cs: Clients, cfg: AutoBan, was: nat, now: nat)
    requires AllLively(cs, cfg, was)
    ensures AllLively(Cleaned(cs, cfg, now), cfg, now)
  {
    forall c | c in Cleaned(cs, cfg, now) ensures Lively(Cleaned(cs, cfg, now)[c], cfg, now) {
      CleanedIff(cs, cfg, now, c);
      SinceCounts(cs[c].times, now - WindowOf(cs[c], cfg));
    }
  }

  lemma {:induction false} StruckIsLively(v: Violation, cfg: AutoBan, now: nat, swept: nat)
    requires swept <= now && cfg.window >= 0 && forall t :: t in v.times ==> t <= now
    ensures Lively(Struck(v, cfg, now).0, cfg, swept)
  {
    SinceCounts(v.times, now - cfg.window);
  }

  lemma {:induction false} RecordingKeepsLively(cs: Clients, client: string, cfg: AutoBan, now: nat, after: Clients, banned: bool, swept: nat)
    requires Recorded(cs, client, cfg, now, after, banned) && AllLively(cs, cfg, swept) && swept <= now && cfg.window >= 0
    requires client in cs ==> cs[client].seen <= now
    ensures AllLively(after, cfg, swept)
  {
    StruckIsLively(Known(cs, client), cfg, now, swept);
    if client !in cs && |cs| >= cfg.maxTracked && !AllBanned(cs, now) {
      var victim :| Evictable(cs, now, victim) && RecordedAfter(cs, victim, client, cfg, now, after, banned);
    }
  }

  ghost predicate SeenBy(cs: Clients, now: nat) {
    forall c :: c in cs ==> cs[c].seen <= now
  }

  lemma {:induction false} StepKeepsLively(s: State, op: Op, cfg: AutoBan, after: State, answer: bool)
    requires Step(s, op, cfg, after, answer) && AllLively(s.clients, cfg, s.lastCleanup) && cfg.window >= 0
    requires SeenBy(s.clients, op.at) && s.lastCleanup <= op.at
    ensures AllLively(after.clients, cfg, after.lastCleanup) && SeenBy(after.clients, op.at) && after.lastCleanup <= op.at
  {
    if op.Violate? && Counts(cfg, op.client) {
      if CleanupDue(s.lastCleanup, cfg, op.at) {
        SweepLeavesLively(s.clients, cfg, s.lastCleanup, op.at);
      }
      var cs := Swept(s, cfg, op.at);
      assert SeenBy(cs, op.at);
      RecordingKeepsLively(cs, op.client, cfg, op.at, after.clients, answer, after.lastCleanup);
      RecordingSees(cs, op.client, cfg, op.at, after.clients, answer);
    }
  }

  lemma {:induction false} RecordingSees(cs: Clients, client: string, cfg: AutoBan, now: nat, after: Clients, banned: bool)
    requires Recorded(cs, client, cfg, now, after, banned) && SeenBy(cs, now)
    ensures SeenBy(after, now)
  {
    if client !in cs && |cs| >= cfg.maxTracked && !AllBanned(cs, now) {
      var victim :| Evictable(cs, now, victim) && RecordedAfter(cs, victim, client, cfg, now, after, banned);
    }
  }

  lemma {:induction false} RunIsLively(run: seq<State>, ops: seq<Op>, answers: seq<bool>, cfg: AutoBan, i: nat)
    requires IsRun(run, ops, answers, cfg) && cfg.window >= 0 && i < |run|
    ensures AllLively(run[i].clients, cfg, run[i].lastCleanup)
    ensures forall j :: i <= j < |ops| ==> SeenBy(run[i].clients, ops[j].at) && run[i].lastCleanup <= ops[j].at
    ensures i > 0 ==> SeenBy(run[i].clients, ops[i - 1].at) && run[i].lastCleanup <= ops[i - 1].at
  {
    if i > 0 {
      RunIsLively(run, ops, answers, cfg, i - 1);
      assert Follows(run, ops, answers, cfg, i - 1);
      StepKeepsLively(run[i - 1], ops[i - 1], cfg, run[i], answers[i - 1]);
    }
  }

  /**
   After a violation is recorded at `now`, the last sweep is less than a minute
   and less than half a window (or a second) ago, and whoever is still tracked was
   banned then or had been seen within one window before it.
   */
  lemma {:induction false} NothingLingers(run: seq<State>, ops: seq<Op>, answers: seq<bool>, cfg: AutoBan, i: nat, c: string)
    requires IsRun(run, ops, answers, cfg) && cfg.window >= 0
    requires i < |ops| && ops[i].Violate? && Counts(cfg, ops[i].client) && c in run[i + 1].clients
    ensures var swept, v := run[i + 1].lastCleanup, run[i + 1].clients[c];
            && 0 <= ops[i].at - swept < MINUTE && (2 * (ops[i].at - swept) <= cfg.window || ops[i].at - swept < SECOND)
            && (swept < v.bannedUntil || v.seen >= swept - cfg.window)
  {
    RunIsLively(run, ops, answers, cfg, i);
    RunIsLively(run, ops, answers, cfg, i + 1);
    assert Follows(run, ops, answers, cfg, i);
    IntervalIs(cfg);
    assert Lively(run[i + 1].clients[c], cfg, run[i + 1].lastCleanup);
  }
}
