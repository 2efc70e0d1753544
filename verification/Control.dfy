/**
 The control manager: configuration changes as transactions over the file, the
 running data plane, the rollback point and the one-slot restart channel.
 Results of code outside the manager (validation, the environment overlay, the
 listener preflight, building a data plane) are inputs.
 */
module Control {
  import opened Text

  const Redaction := "[REDACTED]"

  datatype Tls = Tls(enabled: bool, certFile: string, keyFile: string)

  datatype Timeouts = Timeouts(readHeader: int, read: int, write: int, idle: int, shutdown: int, maxHeaderBytes: int)

  datatype Server = Server(listenAddr: string, tls: Tls, timeouts: Timeouts, forwarding: seq<string>)

  datatype LogStore = LogStore(enabled: bool, capacity: int, defaultPageSize: int, maxPageSize: int)

  datatype Admin = Admin(enabled: bool, listenAddr: string, authToken: string, logStore: LogStore, other: seq<string>)

  datatype Config = Config(server: Server, admin: Admin, routes: seq<string>)

  function When(changed: bool, name: string): seq<string> {
    if changed then [name] else []
  }

  /** The changed fields that a running generation cannot take over. */
  function RestartFields(current: Config, next: Config): seq<string> {
    When(current.server.listenAddr != next.server.listenAddr, "server.listen_addr")
    + When(current.server.tls != next.server.tls, "server.tls")
    + When(current.server.timeouts != next.server.timeouts, "server.timeouts")
    + When(current.admin.enabled != next.admin.enabled, "admin.enabled")
    + When(current.admin.listenAddr != next.admin.listenAddr, "admin.listen_addr")
    + When(current.admin.authToken != next.admin.authToken, "admin.auth_token")
    + When(current.admin.logStore != next.admin.logStore, "admin.log_store")
  }

  /** A configuration with the parts taken over from another that can change while listeners stay up. */
  function Transplant(bound: Config, hot: Config): Config {
    Config(bound.server.(forwarding := hot.server.forwarding), bound.admin.(other := hot.admin.other), hot.routes)
  }

  /** No restart is needed exactly when everything bound at startup is the same. */
  lemma {:induction false} HotIffSameListeners(current: Config, next: Config)
    ensures RestartFields(current, next) == [] <==> next == Transplant(current, next)
  {
  }

  const FieldNames := ["server.listen_addr", "server.tls", "server.timeouts", "admin.enabled", "admin.listen_addr",
                       "admin.auth_token", "admin.log_store"]

  /** What changed of all that is bound at startup, in the order of the names. */
  function Changes(current: Config, next: Config): seq<bool> {
    [current.server.listenAddr != next.server.listenAddr, current.server.tls != next.server.tls,
     current.server.timeouts != next.server.timeouts, current.admin.enabled != next.admin.enabled,
     current.admin.listenAddr != next.admin.listenAddr, current.admin.authToken != next.admin.authToken,
     current.admin.logStore != next.admin.logStore]
  }

  function Listed(changes: seq<bool>, names: seq<string>): seq<string>
    requires |changes| == |names|
  {
    var n := |names| - 1;
    if names == [] then [] else Listed(changes[..n], names[..n]) + When(changes[n], names[n])
  }

  lemma {:induction false} ListedIff(changes: seq<bool>, names: seq<string>, i: nat)
    requires |changes| == |names| && i < |names|
    requires forall j, k :: 0 <= j < k < |names| ==> names[j] != names[k]
    ensures names[i] in Listed(changes, names) <==> changes[i]
    ensures forall x :: x in Listed(changes, names) ==> x in names
  {
    var n := |names| - 1;
    if n > 0 {
      ListedIff(changes[..n], names[..n], if i == n then 0 else i);
      assert names == names[..n] + [names[n]];
    }
    if i == n {
      assert names[n] !in names[..n];
    }
  }

  lemma {:induction false} ListedStep(changes: seq<bool>, names: seq<string>, k: nat)
    requires k < |changes| == |names|
    ensures Listed(changes[..k + 1], names[..k + 1]) == Listed(changes[..k], names[..k]) + When(changes[k], names[k])
  {
    assert changes[..k + 1][..k] == changes[..k] && names[..k + 1][..k] == names[..k];
  }

  lemma {:induction false} FirstFour(c: seq<bool>, n: seq<string>)
    requires |c| == |n| == 7
    ensures Listed(c[..4], n[..4]) == When(c[0], n[0]) + When(c[1], n[1]) + When(c[2], n[2]) + When(c[3], n[3])
  {
    ListedStep(c, n, 0);
    ListedStep(c, n, 1);
    ListedStep(c, n, 2);
    ListedStep(c, n, 3);
    assert [] + When(c[0], n[0]) == When(c[0], n[0]);
  }

  lemma {:induction false} RestartFieldsListed(current: Config, next: Config)
    ensures RestartFields(current, next) == Listed(Changes(current, next), FieldNames)
  {
    var c, n := Changes(current, next), FieldNames;
    FirstFour(c, n);
    LastThree(c, n);
  }

  lemma {:induction false} LastThree(c: seq<bool>, n: seq<string>)
    requires |c| == |n| == 7
    ensures Listed(c, n) == Listed(c[..4], n[..4]) + When(c[4], n[4]) + When(c[5], n[5]) + When(c[6], n[6])
  {
    ListedStep(c, n, 4);
    ListedStep(c, n, 5);
    ListedStep(c, n, 6);
    assert c[..7] == c && n[..7] == n;
  }

  lemma {:induction false} NamesDiffer()
    ensures forall i, j :: 0 <= i < j < |FieldNames| ==> FieldNames[i] != FieldNames[j]
  {
    var lengths := [18, 10, 15, 13, 17, 16, 15];
    forall i, j | 0 <= i < j < |FieldNames| ensures FieldNames[i] != FieldNames[j] {
      assert |FieldNames[i]| == lengths[i] && |FieldNames[j]| == lengths[j];
      assert FieldNames[2][0] != FieldNames[6][0];
    }
  }

  /** A field is reported by its name exactly when it changed. */
  lemma {:induction false} FieldsIff(current: Config, next: Config, i: nat)
    requires i < |FieldNames|
    ensures FieldNames[i] in RestartFields(current, next) <==> Changes(current, next)[i]
  {
    RestartFieldsListed(current, next);
    NamesDiffer();
    ListedIff(Changes(current, next), FieldNames, i);
  }

  /** What survives in the manager between calls; `handler` is the configuration the attached data plane serves. */
  datatype State = State(
    disk: map<string, Config>, path: string, persisted: Config, current: Config, handler: Option<Config>,
    healthyPath: string, healthy: Config, slot: Option<Config>, revision: nat, applied: nat, scheduled: bool)

  /** The outside world during one change. */
  datatype World = World(
    edit: Config -> Option<Config>, allowed: (Config, Config) -> bool, validate: Config -> Option<Config>,
    overlay: Config -> Option<Config>, preflight: bool, reloads: bool, taken: bool)

  datatype Result = Failed | RestartRequired(fields: seq<string>, revision: nat) | Applied(revision: nat)

  function Unredacted(base: Config, c: Config): Config {
    if c.admin.authToken == Redaction then c.(admin := c.admin.(authToken := base.admin.authToken)) else c
  }

  /** What an update writes to the file, if it gets that far. */
  function Candidate(base: Config, w: World): Option<Config> {
    match w.edit(base)
    case None => None
    case Some(c) =>
      if w.allowed(base, Unredacted(base, c)) then w.validate(Unredacted(base, c)) else None
  }

  predicate Admits(s: State, next: Config, w: World) {
    if RestartFields(s.current, next) != [] then w.preflight else s.handler.Some? && w.reloads
  }

  /** The state in which `next`, loaded from `file`, is accepted. */
  function Accepted(s: State, file: Config, next: Config): State {
    if RestartFields(s.current, next) != [] then
      s.(persisted := file, slot := Some(next), revision := s.revision + 1, scheduled := true)
    else
      s.(persisted := file, current := next, handler := Some(next), healthyPath := s.path, healthy := file,
         revision := s.revision + 1, applied := s.revision + 1, scheduled := false)
  }

  predicate Succeeds(s: State, w: World) {
    match Candidate(s.persisted, w)
    case None => false
    case Some(file) => w.overlay(file).Some? && Admits(s, w.overlay(file).value, w)
  }

  /** Everything but the file and the revision counter is as before. */
  predicate Unmoved(s: State, t: State) {
    t == s.(disk := t.disk, revision := t.revision) && s.revision <= t.revision <= s.revision + 1
  }

  /** Where saving a checked file ends: taken back, or accepted. */
  function Landed(s: State, file: Config, w: World): State {
    match w.overlay(file)
    case None => s.(disk := s.disk[s.path := s.persisted])
    case Some(next) =>
      if Admits(s, next, w) then Accepted(s.(disk := s.disk[s.path := file]), file, next)
      else s.(disk := s.disk[s.path := s.persisted], revision := s.revision + 1)
  }

  function AfterUpdate(s: State, w: World): State {
    match Candidate(s.persisted, w)
    case None => s
    case Some(file) => Landed(s, file, w)
  }

  // ----- the admin token ----------------------------------------------------

  /** What readers of the configuration see. */
  function RedactedView(c: Config): Config {
    if Trim(c.admin.authToken) == "" then c else c.(admin := c.admin.(authToken := Redaction))
  }

  /** Validation trims the token and may refuse it. */
  ghost predicate TrimsToken(w: World) {
    forall c :: w.validate(c).Some? ==> w.validate(c).value.admin.authToken == Trim(c.admin.authToken)
  }

  ghost predicate RefusesPlaceholder(w: World) {
    forall c :: w.validate(c).Some? ==> w.validate(c).value.admin.authToken != Redaction
  }

  /** The token an update asks for: the old one where the placeholder stands, else its own. */
  function AskedToken(base: string, edited: string): string {
    if edited == Redaction then base else edited
  }

  class Manager {
    var disk: map<string, Config>
    var path: string
    var persisted: Config
    var current: Config
    var handler: Option<Config>
    var healthyPath: string
    var healthy: Config
    var slot: Option<Config>
    var revision: nat
    var applied: nat
    var scheduled: bool

    function View(): State
      reads this
    {
      State(disk, path, persisted, current, handler, healthyPath, healthy, slot, revision, applied, scheduled)
    }

    constructor (disk: map<string, Config>, path: string, runtime: Config)
      requires path in disk
      ensures View() == State(disk, path, disk[path], runtime, None, path, disk[path], None, 1, 1, false)
    {
      this.disk, this.path, persisted, current, handler := disk, path, disk[path], runtime, None;
      healthyPath, healthy, slot, revision, applied, scheduled := path, disk[path], None, 1, 1, false;
    }

    /** A new generation is up with `cfg`. */
    method Attach(cfg: Config)
      modifies this
      ensures View() == old(View()).(handler := Some(cfg), current := cfg, healthyPath := old(path),
                                     healthy := old(persisted), scheduled := false, applied := old(revision))
    {
      handler, current, healthyPath, healthy, scheduled, applied := Some(cfg), cfg, path, persisted, false, revision;
    }

    /**
     Publishes the newest candidate. The loop may take the old one at any moment
     (`taken`); this is the only sender, so the last send finds the slot empty.
     */
    method Offer(next: Config, taken: bool)
      modifies this`slot
      ensures slot == Some(next)
    {
      if slot.None? {
        slot := Some(next);
      } else {
        if taken { slot := None; }
        if slot.Some? { slot := None; }
        assert slot.None?;
        slot := Some(next);
      }
    }

    method Apply(file: Config, next: Config, w: World) returns (r: Result)
      modifies this
      ensures r.Failed? <==> !Admits(old(View()), next, w)
      ensures r.Failed? ==> View() == old(View()).(revision := old(revision) + 1)
      ensures !r.Failed? ==> View() == Accepted(old(View()), file, next) && r.revision == revision
      ensures r.RestartRequired? ==> r.fields == RestartFields(old(current), next) != []
      ensures r.Applied? ==> RestartFields(old(current), next) == []
    {
      var fields := RestartFields(current, next);
      revision := revision + 1;
      if |fields| > 0 {
        if !w.preflight { return Failed; }
        persisted, scheduled := file, true;
        Offer(next, w.taken);
        return RestartRequired(fields, revision);
      }
      if handler.None? { return Failed; }
      if !w.reloads { return Failed; }
      Install(file, next);
      return Applied(revision);
    }

    /** A rebuilt data plane is published and becomes part of the rollback point. */
    method Install(file: Config, next: Config)
      modifies this
      ensures View() == old(View()).(persisted := file, current := next, handler := Some(next), healthyPath := old(path),
                                     healthy := file, applied := old(revision), scheduled := false)
    {
      handler := Some(next);
      current, persisted, healthyPath, healthy, applied, scheduled := next, file, path, file, revision, false;
    }

    /** Edit, put back a redacted token, and check. */
    method Propose(w: World) returns (c: Option<Config>)
      ensures c == Candidate(persisted, w)
    {
      var edited := w.edit(persisted);
      if edited.None? { return None; }
      var candidate := edited.value;
      if candidate.admin.authToken == Redaction {
        candidate := candidate.(admin := candidate.admin.(authToken := persisted.admin.authToken));
      }
      if !w.allowed(persisted, candidate) { return None; }
      return w.validate(candidate);
    }

    /** A failed update puts back what the manager takes the file to hold. */
    method Update(w: World) returns (r: Result)
      modifies this
      ensures r.Failed? <==> !Succeeds(old(View()), w)
      ensures View() == AfterUpdate(old(View()), w)
      ensures r.Failed? ==> Unmoved(old(View()), View())
      ensures !r.Failed? ==>
                && path in disk && disk[path] == persisted && w.edit(old(persisted)).Some?
                && (TrimsToken(w) ==>
                      persisted.admin.authToken
                      == Trim(AskedToken(old(persisted).admin.authToken, w.edit(old(persisted)).value.admin.authToken)))
      ensures r.RestartRequired? ==>
                && View() == old(View()).(disk := disk, persisted := persisted, slot := slot, revision := revision, scheduled := true)
                && slot.Some? && r.fields == RestartFields(current, slot.value) != [] && r.revision == revision
      ensures r.Applied? ==>
                && slot == old(slot) && handler == Some(current) && current == Transplant(old(current), current)
                && disk == old(disk)[path := persisted] && healthy == persisted && healthyPath == path == old(path)
                && applied == r.revision == revision
    {
      var candidate := Propose(w);
      if candidate.None? { return Failed; }
      UpdateWritesAskedToken(View(), w);
      r := Land(candidate.value, w);
    }

    /** Save, load and apply a checked file; put the old one back when that fails. */
    method Land(file: Config, w: World) returns (r: Result)
      modifies this
      ensures r.Failed? <==> w.overlay(file).None? || !Admits(old(View()), w.overlay(file).value, w)
      ensures View() == Landed(old(View()), file, w)
      ensures r.Failed? ==> Unmoved(old(View()), View())
      ensures r.RestartRequired? ==>
                && View() == old(View()).(disk := disk, persisted := persisted, slot := slot, revision := revision, scheduled := true)
                && slot.Some? && r.fields == RestartFields(current, slot.value) != [] && r.revision == revision
      ensures r.Applied? ==>
                && slot == old(slot) && handler == Some(current) && current == Transplant(old(current), current)
                && disk == old(disk)[path := persisted] && healthy == persisted && healthyPath == path == old(path)
                && applied == r.revision == revision
    {
      var base := persisted;
      disk := disk[path := file];
      var runtime := w.overlay(file);
      if runtime.None? {
        disk := disk[path := base];
        return Failed;
      }
      ghost var saved := View();
      r := Apply(file, runtime.value, w);
      AcceptedFrames(saved, file, runtime.value);
      if r.Failed? { disk := disk[path := base]; }
    }

    /** Reads the watched file; an unreadable or rejected one changes nothing but the counter. */
    method Reload(w: World) returns (r: Result)
      modifies this
      ensures !r.Failed? <==>
              && path in old(disk) && w.allowed(old(persisted), old(disk)[path])
              && w.overlay(old(disk)[path]).Some? && Admits(old(View()), w.overlay(old(disk)[path]).value, w)
      ensures disk == old(disk) && path == old(path)
      ensures r.Failed? ==> Unmoved(old(View()), View())
      ensures !r.Failed? ==> View() == Accepted(old(View()), disk[path], w.overlay(disk[path]).value)
    {
      if path !in disk { return Failed; }
      var file := disk[path];
      if !w.allowed(persisted, file) { return Failed; }
      var runtime := w.overlay(file);
      if runtime.None? { return Failed; }
      r := Apply(file, runtime.value, w);
    }

    /** A changed environment may also name another configuration file. */
    method ReloadEnvironment(desired: string, w: World) returns (r: Result)
      modifies this
      ensures disk == old(disk)
      ensures !r.Failed? <==>
              && desired in disk && (desired == old(path) ==> w.allowed(old(persisted), disk[desired]))
              && w.overlay(disk[desired]).Some? && Admits(old(View()), w.overlay(disk[desired]).value, w)
      ensures r.Failed? ==> Unmoved(old(View()), View())
      ensures !r.Failed? ==>
                && desired in disk && path == desired && w.overlay(disk[desired]).Some?
                && View() == Accepted(old(View()).(path := desired), disk[desired], w.overlay(disk[desired]).value)
    {
      if desired == path {
        r := Reload(w);
        return;
      }
      if desired !in disk { return Failed; }
      var runtime := w.overlay(disk[desired]);
      if runtime.None? { return Failed; }
      var previous := path;
      path := desired;
      r := Apply(disk[desired], runtime.value, w);
      if r.Failed? { path := previous; }
    }

    /** Back to the rollback point after a replacement failed to start. */
    method RecoverFailedRestart() returns (r: Option<Config>)
      modifies this
      ensures r.None? <==> Trim(old(healthyPath)) == ""
      ensures r.None? ==> View() == old(View())
      ensures r.Some? ==>
                && r == Some(old(current))
                && View() == old(View()).(disk := old(disk)[old(healthyPath) := old(healthy)], path := old(healthyPath),
                                          persisted := old(healthy), scheduled := false, slot := None)
      ensures r.Some? ==> disk[path] == persisted == healthy
    {
      var runtime := current;
      if Trim(healthyPath) == "" { return None; }
      disk := disk[healthyPath := healthy];
      path, persisted, scheduled := healthyPath, healthy, false;
      while slot.Some?
        invariant View() == old(View()).(disk := old(disk)[old(healthyPath) := old(healthy)], path := old(healthyPath),
                                         persisted := old(healthy), scheduled := false, slot := slot)
        decreases slot.Some?
      {
        slot := None;
      }
      return Some(runtime);
    }
  }

  /** A successful update writes the token it was asked for, to the file and to the manager's copy alike. */
  lemma {:induction false} UpdateWritesAskedToken(s: State, w: World)
    ensures Succeeds(s, w) ==>
              var t := AfterUpdate(s, w);
              && t.path in t.disk && t.disk[t.path] == t.persisted && w.edit(s.persisted).Some?
              && (TrimsToken(w) ==>
                    t.persisted.admin.authToken
                    == Trim(AskedToken(s.persisted.admin.authToken, w.edit(s.persisted).value.admin.authToken)))
  {
  }

  /** A change is admitted when a rebuilt data plane can be attached or, if listeners change, when these can be bound. */
  lemma {:induction false} AdmitsIff(s: State, next: Config, w: World)
    ensures Admits(s, next, w) <==> if next == Transplant(s.current, next) then s.handler.Some? && w.reloads else w.preflight
  {
    HotIffSameListeners(s.current, next);
  }

  /** What an update checks, in its order: the edit with the token put back, the restrictions, validation, overlay, admission. */
  ghost predicate Passes(s: State, w: World, file: Config, next: Config) {
    && w.edit(s.persisted).Some?
    && PassesChecks(s.persisted, w, w.edit(s.persisted).value, file)
    && w.overlay(file) == Some(next)
    && if next == Transplant(s.current, next) then s.handler.Some? && w.reloads else w.preflight
  }

  ghost predicate PassesChecks(base: Config, w: World, edited: Config, file: Config) {
    var asked := edited.(admin := edited.admin.(authToken := AskedToken(base.admin.authToken, edited.admin.authToken)));
    w.allowed(base, asked) && w.validate(asked) == Some(file)
  }

  /** An update succeeds exactly when it passes every check, and then it installs what passed. */
  lemma {:induction false} UpdateSucceedsIff(s: State, w: World)
    ensures Succeeds(s, w) <==> exists file, next :: Passes(s, w, file, next)
    ensures forall file, next :: Passes(s, w, file, next) ==>
              var t := AfterUpdate(s, w);
              && t.persisted == file && t.disk == s.disk[s.path := file] && t.revision == s.revision + 1
              && (if next == Transplant(s.current, next) then t.current == next && t.handler == Some(next) && t.slot == s.slot && !t.scheduled
                  else t.current == s.current && t.handler == s.handler && t.slot == Some(next) && t.scheduled)
  {
    forall file, next | Passes(s, w, file, next)
      ensures Succeeds(s, w) && AfterUpdate(s, w) == Accepted(s.(disk := s.disk[s.path := file]), file, next)
    {
      AdmitsIff(s, next, w);
    }
    forall next ensures RestartFields(s.current, next) == [] <==> next == Transplant(s.current, next) {
      HotIffSameListeners(s.current, next);
    }
    if Succeeds(s, w) {
      var file := Candidate(s.persisted, w).value;
      var next := w.overlay(file).value;
      AdmitsIff(s, next, w);
      assert Passes(s, w, file, next);
    }
  }

  /** Whoever edits what the reader sees and leaves the token alone keeps the real token. */
  lemma {:induction false} RedactedEditKeepsToken(s: State, w: World)
    requires Succeeds(s, w) && TrimsToken(w)
    requires w.edit(s.persisted).Some? && w.edit(s.persisted).value.admin.authToken == RedactedView(s.persisted).admin.authToken
    ensures AfterUpdate(s, w).persisted.admin.authToken == Trim(s.persisted.admin.authToken)
  {
    UpdateWritesAskedToken(s, w);
  }

  /** Updates one after another, whatever each of them tries. */
  ghost predicate IsUpdateRun(run: seq<State>, ws: seq<World>) {
    |run| == |ws| + 1 && forall i :: 0 <= i < |ws| ==> FollowsUpdate(run, ws, i)
  }

  ghost predicate FollowsUpdate(run: seq<State>, ws: seq<World>, i: int)
    requires |run| == |ws| + 1
  {
    0 <= i < |ws| && run[i + 1] == AfterUpdate(run[i], ws[i])
  }

  /** An edit that means the placeholder says it exactly, without blanks around it. */
  ghost predicate SaysItPlainly(w: World) {
    forall c :: w.edit(c).Some? && Trim(w.edit(c).value.admin.authToken) == Redaction ==>
      w.edit(c).value.admin.authToken == Redaction
  }

  lemma {:induction false} TrimTwice(t: string)
    ensures Trim(Trim(t)) == Trim(t)
  {
    var pre, post := TrimSplits(t);
    TightStays(Trim(t));
  }

  lemma {:induction false} UpdateKeepsPlaceholderOut(s: State, w: World)
    requires Trim(s.persisted.admin.authToken) != Redaction
    requires TrimsToken(w) && (RefusesPlaceholder(w) || SaysItPlainly(w))
    ensures Trim(AfterUpdate(s, w).persisted.admin.authToken) != Redaction
  {
    if Succeeds(s, w) {
      UpdateWritesAskedToken(s, w);
      TrimTwice(AskedToken(s.persisted.admin.authToken, w.edit(s.persisted).value.admin.authToken));
    }
  }

  /** No run of updates ever makes the placeholder the token. */
  lemma {:induction false} PlaceholderNeverWritten(run: seq<State>, ws: seq<World>, i: nat)
    requires IsUpdateRun(run, ws) && i < |run| && Trim(run[0].persisted.admin.authToken) != Redaction
    requires forall k :: 0 <= k < |ws| ==> TrimsToken(ws[k]) && (RefusesPlaceholder(ws[k]) || SaysItPlainly(ws[k]))
    ensures Trim(run[i].persisted.admin.authToken) != Redaction
  {
    if i > 0 {
      PlaceholderNeverWritten(run, ws, i - 1);
      assert FollowsUpdate(run, ws, i - 1);
      UpdateKeepsPlaceholderOut(run[i - 1], ws[i - 1]);
    }
  }

  /** An update that is saved and then found not to load. */
  function SavedThenRefused(): World {
    World((c: Config) => Some(c), (a: Config, b: Config) => true, (c: Config) => Some(c), (c: Config) => None, false, false, false)
  }

  /** A file edited since the manager last read it is overwritten by such an update. */
  lemma {:induction false} UnreadEditIsLost(s: State)
    requires s.path in s.disk && s.disk[s.path] != s.persisted
    ensures var w := SavedThenRefused();
            && !Succeeds(s, w) && AfterUpdate(s, w).disk == s.disk[s.path := s.persisted]
            && AfterUpdate(s, w).disk != s.disk
  {
    assert s.disk[s.path := s.persisted][s.path] != s.disk[s.path];
  }

  /** Failed updates leave the file alone, whatever they try, exactly when the manager's copy of it is up to date. */
  lemma {:induction false} FailedUpdateKeepsFileIff(s: State)
    ensures (forall w :: !Succeeds(s, w) ==> AfterUpdate(s, w).disk == s.disk)
            <==> s.path in s.disk && s.disk[s.path] == s.persisted
  {
    if s.path in s.disk && s.disk[s.path] == s.persisted {
      assert s.disk[s.path := s.persisted] == s.disk;
    } else {
      var w := SavedThenRefused();
      assert !Succeeds(s, w) && s.path in AfterUpdate(s, w).disk;
      assert AfterUpdate(s, w).disk[s.path] == s.persisted;
    }
  }

  /** What an accepted change leaves alone: a restart the running generation and its rollback point, a hot change the slot. */
  lemma {:induction false} AcceptedFrames(s: State, file: Config, next: Config)
    ensures var t := Accepted(s, file, next);
            && t.persisted == file && t.path == s.path && t.disk == s.disk
            && (if next == Transplant(s.current, next) then
                  t.slot == s.slot && t.handler == Some(next) && t.current == next && t.healthy == file && t.applied == t.revision
                else
                  && t.slot == Some(next) && t.current == s.current && t.handler == s.handler && t.applied == s.applied
                  && t.healthy == s.healthy && t.healthyPath == s.healthyPath)
            && (s.applied <= s.revision ==> t.applied <= t.revision)
  {
    HotIffSameListeners(s.current, next);
  }
}
