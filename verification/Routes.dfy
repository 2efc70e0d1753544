/**
 The route table that both programs load, and the matcher of each. The request's
 host and path come in canonical form.
 */
module Routes {
  import opened Text

  const MaxRoutes := 2048
  const MaxHosts := 256
  const MaxName := 256
  const Unmatched := "__unmatched__"

  datatype Route = Route(name: string, hosts: seq<string>, prefix: string)

  // ---- Host patterns ----

  function DropDot(s: string): string {
    if HasSuffix(s, ".") then s[..|s| - 1] else s
  }

  /** How the matchers read a pattern. */
  function Pattern(raw: string): string {
    Lower(Trim(DropDot(raw)))
  }

  predicate IsWildcard(p: string) {
    HasPrefix(p, "*.")
  }

  /** The score of one pattern, negative when it does not match. */
  function Score(p: string, host: string): int {
    if p == "*" then 1
    else if IsWildcard(p) then
      if HasSuffix(host, p[1..]) && host != p[2..] then 1_000 + |p[1..]| else -1
    else if p == host then 1_000_000 + |p|
    else -1
  }

  /** What it is to match: any host, any host with something and a dot in front, or the host itself. */
  ghost predicate Covers(p: string, host: string) {
    || p == "*"
    || (IsWildcard(p) && exists x :: host == x + p[1..])
    || (!IsWildcard(p) && p == host)
  }

  lemma {:induction false} ScoreIffCovers(p: string, host: string)
    ensures Score(p, host) >= 0 <==> Covers(p, host)
  {
    if p != "*" && IsWildcard(p) {
      var suffix := p[1..];
      if HasSuffix(host, suffix) {
        assert host == host[..|host| - |suffix|] + suffix;
        assert |host| > |p[2..]|;
      }
      if x :| host == x + suffix {
        assert host[|x|..] == suffix && |host| - |suffix| == |x|;
        assert |host| > |p[2..]|;
      }
    }
  }

  predicate Exact(p: string) {
    p != "*" && !IsWildcard(p)
  }

  /** Of two matching patterns the more specific scores higher, and no two different patterns tie. */
  lemma {:induction false} SpecificityOrder(p: string, q: string, host: string)
    requires Score(p, host) >= 0 && Score(q, host) >= 0
    ensures Exact(p) && !Exact(q) ==> Score(p, host) > Score(q, host)
    ensures IsWildcard(p) && q == "*" ==> Score(p, host) > Score(q, host)
    ensures IsWildcard(p) && IsWildcard(q) ==> (Score(p, host) > Score(q, host) <==> |p| > |q|)
    ensures Score(p, host) == Score(q, host) ==> p == q
  {
    assert !IsWildcard("*");
    if IsWildcard(p) && IsWildcard(q) && |p| == |q| {
      assert p[1..] == host[|host| - |p| + 1..] == q[1..];
      assert p == p[..1] + p[1..] && q == q[..1] + q[1..] && p[..2] == q[..2];
      assert p[0] == p[..2][0] && q[0] == q[..2][0];
    }
  }

  function Best(patterns: seq<string>, host: string): int {
    if patterns == [] then -1
    else
      var b, s := Best(patterns[..|patterns| - 1], host), Score(Pattern(patterns[|patterns| - 1]), host);
      if s > b then s else b
  }

  method HostMatchSpecificity(patterns: seq<string>, host: string) returns (matched: bool, best: int)
    ensures best == Best(patterns, host) && matched == (best >= 0)
  {
    best := -1;
    for i := 0 to |patterns|
      invariant best == Best(patterns[..i], host) >= -1
    {
      assert patterns[..i + 1][..i] == patterns[..i];
      var p := Lower(Trim(DropDot(patterns[i])));
      if p == "*" {
        if best < 1 { best := 1; }
      } else if HasPrefix(p, "*.") {
        var suffix := p[1..];
        assert suffix[1..] == p[2..];
        if HasSuffix(host, suffix) && host != suffix[1..] {
          var score := 1_000 + |suffix|;
          if score > best { best := score; }
        }
      } else if p == host {
        var score := 1_000_000 + |p|;
        if score > best { best := score; }
      }
    }
    assert patterns[..|patterns|] == patterns;
    matched := best >= 0;
  }

  /** No pattern scores higher than the best. */
  lemma {:induction false} BestBounds(patterns: seq<string>, host: string, i: nat)
    requires i < |patterns|
    ensures Score(Pattern(patterns[i]), host) <= Best(patterns, host)
  {
    if i < |patterns| - 1 {
      BestBounds(patterns[..|patterns| - 1], host, i);
    }
  }

  /** The best score is that of some pattern. */
  lemma {:induction false} BestAttained(patterns: seq<string>, host: string) returns (i: nat)
    requires Best(patterns, host) >= 0
    ensures i < |patterns| && Score(Pattern(patterns[i]), host) == Best(patterns, host)
  {
    i := |patterns| - 1;
    var front := patterns[..i];
    if Best(patterns, host) == Best(front, host) {
      i := BestAttained(front, host);
    }
  }

  /** A route matches on its hosts exactly when one of its patterns covers the host. */
  lemma {:induction false} HostMatchesIff(patterns: seq<string>, host: string)
    ensures Best(patterns, host) >= 0 <==> exists i :: 0 <= i < |patterns| && Covers(Pattern(patterns[i]), host)
  {
    if Best(patterns, host) >= 0 {
      var i := BestAttained(patterns, host);
      ScoreIffCovers(Pattern(patterns[i]), host);
    }
    if i :| 0 <= i < |patterns| && Covers(Pattern(patterns[i]), host) {
      ScoreIffCovers(Pattern(patterns[i]), host);
      BestBounds(patterns, host, i);
    }
  }

  // ---- Path prefixes ----

  predicate PathPrefixMatches(path: string, prefix: string) {
    || prefix == "/"
    || path == prefix
    || (HasPrefix(path, prefix) && |path| > |prefix| && path[|prefix|] == '/')
  }

  /** A prefix matches whole segments only. */
  lemma {:induction false} PrefixEndsASegment(path: string, prefix: string)
    ensures PathPrefixMatches(path, prefix) <==> prefix == "/" || path == prefix || exists rest :: path == prefix + "/" + rest
  {
    if HasPrefix(path, prefix) && |path| > |prefix| && path[|prefix|] == '/' {
      assert path == prefix + "/" + path[|prefix| + 1..];
    }
    if rest :| path == prefix + "/" + rest {
      assert path[..|prefix|] == prefix && path[|prefix|] == '/';
    }
  }

  lemma {:induction false} SameLengthSamePrefix(path: string, p: string, q: string)
    requires HasPrefix(p, "/") && HasPrefix(q, "/") && |p| == |q|
    requires PathPrefixMatches(path, p) && PathPrefixMatches(path, q)
    ensures p == q
  {
    if |p| == 1 {
      assert p == p[..1] && q == q[..1];
    } else {
      assert p == path[..|p|] && q == path[..|q|];
    }
  }

  // ---- Choosing a route ----

  predicate Matches(r: Route, host: string, path: string) {
    Best(r.hosts, host) >= 0 && PathPrefixMatches(path, r.prefix)
  }

  /** First by prefix length, then by host. */
  predicate Outranks(a: Route, b: Route, host: string) {
    |a.prefix| > |b.prefix| || (|a.prefix| == |b.prefix| && Best(a.hosts, host) > Best(b.hosts, host))
  }

  /** No matching route among the first `n` outranks `r`. */
  ghost predicate Unbeaten(routes: seq<Route>, n: int, host: string, path: string, r: Route)
    requires n <= |routes|
  {
    forall j :: 0 <= j < n && Matches(routes[j], host, path) ==> !Outranks(routes[j], r, host)
  }

  /** `r` outranks the matching routes among the first `n`. */
  ghost predicate Beats(routes: seq<Route>, n: int, host: string, path: string, r: Route)
    requires n <= |routes|
  {
    forall j :: 0 <= j < n && Matches(routes[j], host, path) ==> Outranks(r, routes[j], host)
  }

  ghost predicate NoneMatch(routes: seq<Route>, n: int, host: string, path: string)
    requires n <= |routes|
  {
    forall j :: 0 <= j < n ==> !Matches(routes[j], host, path)
  }

  /** Among the first `n` routes, `k` is the first matching one that none outranks; -1 stands for no match. */
  ghost predicate BestOf(routes: seq<Route>, n: nat, host: string, path: string, k: int)
    requires n <= |routes|
  {
    if k < 0 then k == -1 && NoneMatch(routes, n, host, path)
    else
      && k < n && Matches(routes[k], host, path)
      && Unbeaten(routes, n, host, path, routes[k]) && Beats(routes, k, host, path, routes[k])
  }

  ghost predicate FirstBest(routes: seq<Route>, host: string, path: string, k: int) {
    BestOf(routes, |routes|, host, path, k)
  }

  lemma {:induction false} OutranksTransitive(a: Route, b: Route, c: Route, host: string)
    ensures Outranks(a, b, host) && !Outranks(c, b, host) ==> Outranks(a, c, host)
    ensures !Outranks(a, a, host) && (Outranks(a, b, host) ==> !Outranks(b, a, host))
  {
  }

  lemma {:induction false} BetterBeats(routes: seq<Route>, n: nat, host: string, path: string, champion: Route, r: Route)
    requires n <= |routes| && Unbeaten(routes, n, host, path, champion) && Outranks(r, champion, host)
    ensures Beats(routes, n, host, path, r) && Unbeaten(routes, n, host, path, r)
  {
    forall j | 0 <= j < n && Matches(routes[j], host, path)
      ensures Outranks(r, routes[j], host) && !Outranks(routes[j], r, host)
    {
      OutranksTransitive(r, champion, routes[j], host);
      OutranksTransitive(r, routes[j], r, host);
    }
  }

  lemma {:induction false} OneMore(routes: seq<Route>, i: nat, host: string, path: string, r: Route)
    requires i < |routes| && Unbeaten(routes, i, host, path, r)
    requires Matches(routes[i], host, path) ==> !Outranks(routes[i], r, host)
    ensures Unbeaten(routes, i + 1, host, path, r)
  {
  }

  lemma {:induction false} BestOfStep(routes: seq<Route>, host: string, path: string, k: int, i: nat)
    requires i < |routes| && BestOf(routes, i, host, path, k)
    ensures var better := Matches(routes[i], host, path) && (k < 0 || Outranks(routes[i], routes[k], host));
            BestOf(routes, i + 1, host, path, if better then i else k)
  {
    OutranksTransitive(routes[i], routes[i], routes[i], host);
    if k >= 0 {
      if Outranks(routes[i], routes[k], host) {
        BetterBeats(routes, i, host, path, routes[k], routes[i]);
        OneMore(routes, i, host, path, routes[i]);
      }
      if !Matches(routes[i], host, path) || !Outranks(routes[i], routes[k], host) {
        OneMore(routes, i, host, path, routes[k]);
      }
    }
  }

  /** EdgeProxy's router refers to the configured routes. */
  class Router {
    var routes: seq<Route>

    constructor (routes: seq<Route>)
      ensures this.routes == routes
    {
      this.routes := routes;
    }

    method Match(host: string, path: string) returns (best: int)
      ensures FirstBest(routes, host, path, best)
    {
      best := -1;
      var bestPathLength, bestHostScore := -1, -1;
      for i := 0 to |routes|
        invariant BestOf(routes, i, host, path, best)
        invariant if best < 0 then bestPathLength == -1
                  else bestPathLength == |routes[best].prefix| && bestHostScore == Best(routes[best].hosts, host)
      {
        BestOfStep(routes, host, path, best, i);
        var route := routes[i];
        var matched, hostScore := HostMatchSpecificity(route.hosts, host);
        if !matched || !PathPrefixMatches(path, route.prefix) { continue; }
        var pathLength := |route.prefix|;
        if pathLength > bestPathLength || (pathLength == bestPathLength && hostScore > bestHostScore) {
          best, bestPathLength, bestHostScore := i, pathLength, hostScore;
        }
      }
    }
  }

  /** SecurityEdge's table returns a copy of the route. */
  class Table {
    var routes: seq<Route>

    constructor (routes: seq<Route>)
      ensures this.routes == routes
    {
      this.routes := routes;
    }

    method Match(host: string, path: string) returns (r: Option<Route>)
      ensures Decides(routes, host, path, r)
    {
      var best, bestPathLength, bestHostScore := -1, -1, -1;
      r := None;
      for i := 0 to |routes|
        invariant BestOf(routes, i, host, path, best)
        invariant r == if best < 0 then None else Some(routes[best])
        invariant best >= 0 ==> bestPathLength == |routes[best].prefix| && bestHostScore == Best(routes[best].hosts, host)
        invariant best < 0 ==> bestPathLength == -1
      {
        BestOfStep(routes, host, path, best, i);
        var matched, hostScore := HostMatchSpecificity(routes[i].hosts, host);
        if !matched || !PathPrefixMatches(path, routes[i].prefix) { continue; }
        var pathLength := |routes[i].prefix|;
        if pathLength > bestPathLength || (pathLength == bestPathLength && hostScore > bestHostScore) {
          best, bestPathLength, bestHostScore := i, pathLength, hostScore;
          r := Some(routes[i]);
        }
      }
    }
  }

  ghost predicate Decides(routes: seq<Route>, host: string, path: string, r: Option<Route>) {
    exists k :: FirstBest(routes, host, path, k) && r == if k < 0 then None else Some(routes[k])
  }

  // ---- What the chosen route is ----

  /** An exact name before a wildcard, a longer wildcard before a shorter one, anything before the catch-all. */
  ghost predicate MoreSpecific(p: string, q: string) {
    || (Exact(p) && !Exact(q))
    || (IsWildcard(p) && (q == "*" || (IsWildcard(q) && |p| > |q|)))
  }

  ghost predicate CoversBy(r: Route, host: string, i: int) {
    0 <= i < |r.hosts| && Covers(Pattern(r.hosts[i]), host)
  }

  /** Route `r` is for this host and path. */
  ghost predicate Serves(r: Route, host: string, path: string) {
    && (exists i :: CoversBy(r, host, i))
    && (r.prefix == "/" || path == r.prefix || exists rest :: path == r.prefix + "/" + rest)
  }

  /** One pattern of `a` covers the host and is more specific than every pattern of `b` that does. */
  ghost predicate NamesBetter(a: Route, b: Route, host: string) {
    exists i :: CoversBy(a, host, i) && forall m :: CoversBy(b, host, m) ==> MoreSpecific(Pattern(a.hosts[i]), Pattern(b.hosts[m]))
  }

  ghost predicate Preferred(a: Route, b: Route, host: string) {
    |a.prefix| > |b.prefix| || (|a.prefix| == |b.prefix| && NamesBetter(a, b, host))
  }

  ghost predicate NonePreferred(routes: seq<Route>, host: string, path: string, r: Route) {
    forall j :: 0 <= j < |routes| && Serves(routes[j], host, path) ==> !Preferred(routes[j], r, host)
  }

  ghost predicate PreferredToEarlier(routes: seq<Route>, n: nat, host: string, path: string, r: Route)
    requires n <= |routes|
  {
    forall j :: 0 <= j < n && Serves(routes[j], host, path) ==> Preferred(r, routes[j], host)
  }

  /** The first of the routes for this request that no other is preferred to. */
  ghost predicate Chosen(routes: seq<Route>, host: string, path: string, k: nat) {
    && k < |routes| && Serves(routes[k], host, path)
    && NonePreferred(routes, host, path, routes[k]) && PreferredToEarlier(routes, k, host, path, routes[k])
  }

  lemma {:induction false} HigherIffMoreSpecific(p: string, q: string, host: string)
    requires Covers(p, host) && Covers(q, host)
    ensures Score(p, host) > Score(q, host) <==> MoreSpecific(p, q)
  {
    ScoreIffCovers(p, host);
    ScoreIffCovers(q, host);
    SpecificityOrder(p, q, host);
    SpecificityOrder(q, p, host);
  }

  lemma {:induction false} CoveringPattern(r: Route, host: string) returns (i: int)
    requires Best(r.hosts, host) >= 0
    ensures CoversBy(r, host, i) && Score(Pattern(r.hosts[i]), host) == Best(r.hosts, host)
  {
    i := BestAttained(r.hosts, host);
    ScoreIffCovers(Pattern(r.hosts[i]), host);
  }

  lemma {:induction false} BetterNameIff(a: Route, b: Route, host: string)
    requires Best(a.hosts, host) >= 0 && Best(b.hosts, host) >= 0
    ensures Best(a.hosts, host) > Best(b.hosts, host) <==> NamesBetter(a, b, host)
  {
    if Best(a.hosts, host) > Best(b.hosts, host) {
      var i := CoveringPattern(a, host);
      forall m | CoversBy(b, host, m) ensures MoreSpecific(Pattern(a.hosts[i]), Pattern(b.hosts[m])) {
        BestBounds(b.hosts, host, m);
        HigherIffMoreSpecific(Pattern(a.hosts[i]), Pattern(b.hosts[m]), host);
      }
    }
    if NamesBetter(a, b, host) {
      var i :| CoversBy(a, host, i) && forall m :: CoversBy(b, host, m) ==> MoreSpecific(Pattern(a.hosts[i]), Pattern(b.hosts[m]));
      var m := CoveringPattern(b, host);
      HigherIffMoreSpecific(Pattern(a.hosts[i]), Pattern(b.hosts[m]), host);
      BestBounds(a.hosts, host, i);
    }
  }

  lemma {:induction false} HostIffCovered(r: Route, host: string)
    ensures Best(r.hosts, host) >= 0 <==> exists i :: CoversBy(r, host, i)
  {
    HostMatchesIff(r.hosts, host);
    if Best(r.hosts, host) >= 0 {
      var i := CoveringPattern(r, host);
    }
    if i :| CoversBy(r, host, i) {
      assert Covers(Pattern(r.hosts[i]), host);
    }
  }

  lemma {:induction false} MatchesIffServes(r: Route, host: string, path: string)
    ensures Matches(r, host, path) <==> Serves(r, host, path)
  {
    HostIffCovered(r, host);
    PrefixEndsASegment(path, r.prefix);
  }

  lemma {:induction false} OutranksIffPreferred(a: Route, b: Route, host: string, path: string)
    requires Matches(a, host, path) && Matches(b, host, path)
    ensures Outranks(a, b, host) <==> Preferred(a, b, host)
  {
    BetterNameIff(a, b, host);
  }

  lemma {:induction false} UnbeatenIff(routes: seq<Route>, host: string, path: string, r: Route)
    requires Matches(r, host, path)
    ensures Unbeaten(routes, |routes|, host, path, r) <==> NonePreferred(routes, host, path, r)
  {
    forall j | 0 <= j < |routes|
      ensures (Matches(routes[j], host, path) ==> !Outranks(routes[j], r, host))
              <==> (Serves(routes[j], host, path) ==> !Preferred(routes[j], r, host))
    {
      MatchesIffServes(routes[j], host, path);
      if Matches(routes[j], host, path) {
        OutranksIffPreferred(routes[j], r, host, path);
      }
    }
  }

  lemma {:induction false} BeatsIff(routes: seq<Route>, n: nat, host: string, path: string, r: Route)
    requires n <= |routes| && Matches(r, host, path)
    ensures Beats(routes, n, host, path, r) <==> PreferredToEarlier(routes, n, host, path, r)
  {
    forall j | 0 <= j < n
      ensures (Matches(routes[j], host, path) ==> Outranks(r, routes[j], host))
              <==> (Serves(routes[j], host, path) ==> Preferred(r, routes[j], host))
    {
      MatchesIffServes(routes[j], host, path);
      if Matches(routes[j], host, path) {
        OutranksIffPreferred(r, routes[j], host, path);
      }
    }
  }

  /** The matchers choose the longest prefix, then the most specific host, then the first route. */
  lemma {:induction false} ChosenIff(routes: seq<Route>, host: string, path: string, k: nat)
    ensures FirstBest(routes, host, path, k) <==> Chosen(routes, host, path, k)
  {
    if k < |routes| {
      MatchesIffServes(routes[k], host, path);
      if Matches(routes[k], host, path) {
        UnbeatenIff(routes, host, path, routes[k]);
        BeatsIff(routes, k, host, path, routes[k]);
      }
    }
  }

  /** They choose none exactly when no route is for the request. */
  lemma {:induction false} UnmatchedIff(routes: seq<Route>, host: string, path: string)
    ensures FirstBest(routes, host, path, -1) <==> forall j :: 0 <= j < |routes| ==> !Serves(routes[j], host, path)
  {
    forall j | 0 <= j < |routes| ensures Matches(routes[j], host, path) <==> Serves(routes[j], host, path) {
      MatchesIffServes(routes[j], host, path);
    }
  }

  /** No route for the request has a longer prefix than the chosen one, and none of the same length a pattern more specific than its best. */
  lemma {:induction false} LongestPrefixWins(routes: seq<Route>, host: string, path: string, k: nat, j: nat) returns (i: int)
    requires FirstBest(routes, host, path, k) && j < |routes| && Serves(routes[j], host, path)
    ensures |routes[j].prefix| <= |routes[k].prefix|
    ensures CoversBy(routes[k], host, i)
    ensures |routes[j].prefix| == |routes[k].prefix| ==>
              forall m :: CoversBy(routes[j], host, m) ==> !MoreSpecific(Pattern(routes[j].hosts[m]), Pattern(routes[k].hosts[i]))
  {
    MatchesIffServes(routes[j], host, path);
    i := CoveringPattern(routes[k], host);
    forall m | CoversBy(routes[j], host, m) && |routes[j].prefix| == |routes[k].prefix|
      ensures !MoreSpecific(Pattern(routes[j].hosts[m]), Pattern(routes[k].hosts[i]))
    {
      BestBounds(routes[j].hosts, host, m);
      HigherIffMoreSpecific(Pattern(routes[j].hosts[m]), Pattern(routes[k].hosts[i]), host);
    }
  }

  // ---- Validated tables ----

  /** Text a normalised host pattern is made of. */
  predicate HostChar(c: char) {
    'a' <= c <= 'z' || '0' <= c <= '9' || c in "-.:*"
  }

  predicate HostText(s: string) {
    s != "" && s[|s| - 1] != '.' && forall i :: 0 <= i < |s| ==> HostChar(s[i])
  }

  ghost predicate WellFormed(r: Route) {
    r.hosts != [] && HasPrefix(r.prefix, "/") && forall i :: 0 <= i < |r.hosts| ==> HostText(r.hosts[i])
  }

  predicate Shares(a: Route, b: Route) {
    a.prefix == b.prefix && exists i :: 0 <= i < |a.hosts| && a.hosts[i] in b.hosts
  }

  predicate Apart(a: Route, b: Route) {
    Lower(a.name) != Lower(b.name) && !Shares(a, b)
  }

  lemma {:induction false} SharesSymmetric(a: Route, b: Route)
    ensures Shares(a, b) <==> Shares(b, a)
  {
  }

  ghost predicate Valid(t: seq<Route>) {
    && (forall i :: 0 <= i < |t| ==> WellFormed(t[i]))
    && forall i, j :: 0 <= i < j < |t| ==> Apart(t[i], t[j])
  }

  lemma {:induction false} TrimmedAlready(s: string)
    requires HostText(s)
    ensures Pattern(s) == s
  {
    assert s[|s| - 1..][0] == s[|s| - 1];
    assert !HasSuffix(s, ".");
    assert HostChar(s[0]) && HostChar(s[|s| - 1]);
    assert Lower(s) == s;
  }

  lemma {:induction false} BestPattern(r: Route, host: string) returns (i: nat)
    requires WellFormed(r) && Best(r.hosts, host) >= 0
    ensures i < |r.hosts| && Score(r.hosts[i], host) == Best(r.hosts, host)
  {
    i := BestAttained(r.hosts, host);
    TrimmedAlready(r.hosts[i]);
  }

  /** In a validated table the chosen route strictly outranks every other route that matches. */
  lemma {:induction false} UniqueMaximum(t: seq<Route>, host: string, path: string, k: nat, j: nat)
    requires Valid(t) && FirstBest(t, host, path, k) && j < |t| && j != k && Matches(t[j], host, path)
    ensures Outranks(t[k], t[j], host)
  {
    assert WellFormed(t[k]) && WellFormed(t[j]);
    assert if j < k then Apart(t[j], t[k]) else Apart(t[k], t[j]);
    SharesSymmetric(t[j], t[k]);
    if |t[k].prefix| == |t[j].prefix| {
      SameLengthSamePrefix(path, t[k].prefix, t[j].prefix);
      var x := BestPattern(t[k], host);
      var y := BestPattern(t[j], host);
      SpecificityOrder(t[k].hosts[x], t[j].hosts[y], host);
    }
  }

  /** The route is a function of the table: EdgeProxy and SecurityEdge agree on every request. */
  lemma {:induction false} MatchersAgree(t: seq<Route>, host: string, path: string, k: int, r: Option<Route>)
    requires FirstBest(t, host, path, k) && Decides(t, host, path, r)
    ensures r == if k < 0 then None else Some(t[k])
  {
    var l :| FirstBest(t, host, path, l) && r == if l < 0 then None else Some(t[l]);
  }

  lemma {:induction false} Elsewhere(t: seq<Route>, i: nat, j: nat)
    requires i < j < |t|
    ensures multiset(t)[t[i]] >= (if t[i] == t[j] then 2 else 1)
  {
    assert t == t[..j] + [t[j]] + t[j + 1..];
    assert t[i] in t[..j] by { assert t[..j][i] == t[i]; }
    assert multiset(t[..j])[t[i]] >= 1;
  }

  lemma {:induction false} TwoPlaces(t: seq<Route>, x: Route) returns (i: nat, j: nat)
    requires multiset(t)[x] >= 2
    ensures i < j < |t| && t[i] == t[j] == x
  {
    assert x in t;
    i :| i < |t| && t[i] == x && x !in t[..i] by {
      var k := FirstPlace(t, x);
      assert x !in t[..k];
    }
    assert t == t[..i] + [x] + t[i + 1..];
    assert multiset(t)[x] == multiset(t[..i])[x] + 1 + multiset(t[i + 1..])[x];
    assert x in t[i + 1..];
    var d :| 0 <= d < |t[i + 1..]| && t[i + 1..][d] == x;
    j := i + 1 + d;
  }

  lemma {:induction false} FirstPlace(t: seq<Route>, x: Route) returns (k: nat)
    requires x in t
    ensures k < |t| && t[k] == x && x !in t[..k]
  {
    if t[0] == x {
      k := 0;
    } else {
      assert x in t[1..] by {
        var i :| 0 <= i < |t| && t[i] == x;
        assert t[1..][i - 1] == x;
      }
      k := FirstPlace(t[1..], x);
      k := k + 1;
      assert t[..k] == [t[0]] + t[1..][..k - 1];
    }
  }

  /** Reordering a validated table gives a validated table. */
  lemma {:induction false} ValidInAnyOrder(t: seq<Route>, u: seq<Route>)
    requires Valid(t) && multiset(t) == multiset(u)
    ensures Valid(u)
  {
    forall i | 0 <= i < |u| ensures WellFormed(u[i]) {
      assert u[i] in multiset(t);
    }
    forall i, j | 0 <= i < j < |u| ensures Apart(u[i], u[j]) {
      Elsewhere(u, i, j);
      if u[i] == u[j] {
        var a, b := TwoPlaces(t, u[i]);
        assert Apart(t[a], t[b]);
      } else {
        assert u[i] in multiset(t) && u[j] in multiset(t);
        var a :| 0 <= a < |t| && t[a] == u[i];
        var b :| 0 <= b < |t| && t[b] == u[j];
        assert if a < b then Apart(t[a], t[b]) else Apart(t[b], t[a]);
        SharesSymmetric(u[i], u[j]);
      }
    }
  }

  /** The order of a validated table never changes the route chosen. */
  lemma {:induction false} OrderDoesNotMatter(t: seq<Route>, u: seq<Route>, host: string, path: string, a: Option<Route>, b: Option<Route>)
    requires Valid(t) && multiset(t) == multiset(u)
    requires Decides(t, host, path, a) && Decides(u, host, path, b)
    ensures a == b
  {
    var k :| FirstBest(t, host, path, k) && a == if k < 0 then None else Some(t[k]);
    var l :| FirstBest(u, host, path, l) && b == if l < 0 then None else Some(u[l]);
    forall r: Route ensures r in t <==> r in u {
      assert r in multiset(t) <==> r in multiset(u);
    }
    if l >= 0 {
      assert u[l] in t;
    }
    if k >= 0 {
      assert t[k] in u;
      var m :| 0 <= m < |u| && u[m] == t[k];
      assert Matches(u[m], host, path) && !Outranks(u[m], u[l], host);
      var n :| 0 <= n < |t| && t[n] == u[l];
      if n != k {
        UniqueMaximum(t, host, path, k, n);
      }
    }
  }
}
