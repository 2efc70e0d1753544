/**
 Loading the shared route table. Parsing of IP addresses is an input: a function
 from text to the canonical text of the address, if it is one.
 */
module RouteLoader {
  import opened Text
  import opened Routes

  type IpParser = string -> Option<string>

  ghost predicate Canonical(ip: IpParser) {
    forall s :: ip(s).Some? ==> HostText(ip(s).value)
  }

  // ---- Hosts ----

  predicate Alnum(c: char) {
    'a' <= c <= 'z' || '0' <= c <= '9'
  }

  predicate IsLabel(s: string) {
    && 0 < |s| <= 63
    && (forall i :: 0 <= i < |s| ==> Alnum(s[i]) || s[i] == '-')
    && Alnum(s[0]) && Alnum(s[|s| - 1])
  }

  predicate IsHostname(s: string) {
    |s| <= 253 && forall i :: 0 <= i < |Split(s, '.')| ==> IsLabel(Split(s, '.')[i])
  }

  function Unbracketed(s: string): Option<string> {
    if |s| > 1 && s[0] == '[' && s[|s| - 1] == ']' then Some(s[1..|s| - 1]) else None
  }

  function NormalizeExact(value: string, ip: IpParser): Option<string> {
    if Unbracketed(value).Some? then ip(Unbracketed(value).value)
    else if ip(value).Some? then ip(value)
    else if !Lacks(value, ':') then None
    else if IsHostname(value) then Some(value)
    else None
  }

  predicate HasForbidden(s: string) {
    exists i :: 0 <= i < |s| && s[i] in " \t\r\n/\\?#@"
  }

  function NormalizeHost(raw: string, ip: IpParser): Option<string> {
    NormalizeFolded(DropDot(Lower(Trim(raw))), ip)
  }

  function NormalizeFolded(value: string, ip: IpParser): Option<string> {
    if value == "" then None
    else if value == "*" then Some(value)
    else if HasForbidden(value) then None
    else if IsWildcard(value) then
      if !Lacks(value[2..], '*') then None
      else
        match NormalizeExact(value[2..], ip)
        case None => None
        case Some(suffix) => if ip(suffix).Some? then None else Some("*." + suffix)
    else if !Lacks(value, '*') then None
    else NormalizeExact(value, ip)
  }

  predicate LabelText(s: string) {
    forall i :: 0 <= i < |s| ==> Alnum(s[i]) || s[i] == '-'
  }

  lemma {:induction false} HostnameText(s: string)
    requires forall i :: 0 <= i < |Split(s, '.')| ==> LabelText(Split(s, '.')[i])
    ensures forall i :: 0 <= i < |s| ==> HostChar(s[i])
  {
    if s != "" {
      var front, c := s[..|s| - 1], s[|s| - 1];
      var f, g := Split(front, '.'), Split(s, '.');
      forall i | 0 <= i < |f| ensures LabelText(f[i]) {
        assert LabelText(g[i]);
        assert c != '.' && i == |f| - 1 ==> f[i] == g[i][..|f[i]|];
      }
      HostnameText(front);
      assert LabelText(g[|g| - 1]);
      assert c != '.' ==> g[|g| - 1][|g[|g| - 1]| - 1] == c;
    }
  }

  lemma {:induction false} HostnameIsHostText(s: string)
    requires IsHostname(s)
    ensures HostText(s)
  {
    var g := Split(s, '.');
    forall i | 0 <= i < |g| ensures LabelText(g[i]) {
      assert IsLabel(g[i]);
    }
    HostnameText(s);
    assert IsLabel(g[|g| - 1]);
  }

  lemma {:induction false} NormalizedExact(value: string, ip: IpParser)
    requires Canonical(ip) && NormalizeExact(value, ip).Some?
    ensures HostText(NormalizeExact(value, ip).value)
  {
    if IsHostname(value) {
      HostnameIsHostText(value);
    }
  }

  lemma {:induction false} NormalizedFolded(value: string, ip: IpParser)
    requires Canonical(ip) && NormalizeFolded(value, ip).Some?
    ensures HostText(NormalizeFolded(value, ip).value)
  {
    if value != "*" {
      NormalizedExact(if IsWildcard(value) then value[2..] else value, ip);
    }
  }

  /** A normalised pattern is what the matchers read it as. */
  lemma {:induction false} NormalizedHost(raw: string, ip: IpParser, host: string)
    requires Canonical(ip) && NormalizeHost(raw, ip) == Some(host)
    ensures HostText(host) && Pattern(host) == host
  {
    NormalizedFolded(DropDot(Lower(Trim(raw))), ip);
    TrimmedAlready(host);
  }

  // ---- Prefixes ----

  /** A rooted path that `path.Clean` leaves alone. */
  predicate IsClean(p: string) {
    || p == "/"
    || (HasPrefix(p, "/") && forall s :: s in Split(p[1..], '/') ==> s != "" && s != "." && s != "..")
  }

  /** One trailing slash is dropped; anything else that is not canonical is refused. */
  function NormalizePrefix(raw: string): Option<string> {
    var value := Trim(raw);
    if value == "" then Some("/")
    else if !HasPrefix(value, "/") then None
    else if !Lacks(value, '?') || !Lacks(value, '#') || !Lacks(value, '%') then None
    else if IsClean(value) then Some(value)
    else if HasSuffix(value, "/") && IsClean(value[..|value| - 1]) then Some(value[..|value| - 1])
    else None
  }

  lemma {:induction false} NormalizedPrefix(raw: string)
    requires NormalizePrefix(raw).Some?
    ensures IsClean(NormalizePrefix(raw).value) && HasPrefix(NormalizePrefix(raw).value, "/")
  {
  }

  // ---- The table ----

  type Patterns = seq<Option<string>>

  function NormalizedHosts(raws: seq<string>, ip: IpParser): Patterns {
    seq(|raws|, i requires 0 <= i < |raws| => NormalizeHost(raws[i], ip))
  }

  /** The patterns, if all are there and none is repeated. */
  function Collect(ps: Patterns): Option<seq<string>> {
    if ps == [] then Some([])
    else
      var front, h := Collect(ps[..|ps| - 1]), ps[|ps| - 1];
      if front.Some? && h.Some? && h.value !in front.value then Some(front.value + [h.value]) else None
  }

  /** The route's patterns, normalised and without repetition. */
  function HostsOf(raws: seq<string>, ip: IpParser): Option<seq<string>> {
    Collect(NormalizedHosts(raws, ip))
  }

  lemma {:induction false} CollectPrefix(ps: Patterns, n: nat)
    requires n <= |ps| && Collect(ps).Some?
    ensures Collect(ps[..n]).Some?
  {
    if n < |ps| {
      CollectPrefix(ps[..|ps| - 1], n);
      assert ps[..|ps| - 1][..n] == ps[..n];
    } else {
      assert ps[..n] == ps;
    }
  }

  lemma {:induction false} CollectStep(ps: Patterns, i: nat, hosts: seq<string>)
    requires i < |ps| && Collect(ps[..i]) == Some(hosts)
    ensures ps[i].None? || ps[i].value in hosts ==> Collect(ps).None?
    ensures ps[i].Some? && ps[i].value !in hosts ==> Collect(ps[..i + 1]) == Some(hosts + [ps[i].value])
  {
    assert ps[..i + 1][..i] == ps[..i];
    if Collect(ps).Some? {
      CollectPrefix(ps, i + 1);
    }
  }

  /** What is collected are the patterns themselves, each once. */
  lemma {:induction false} CollectIs(ps: Patterns, i: nat)
    requires Collect(ps).Some? && i < |ps|
    ensures var hs := Collect(ps).value;
            |hs| == |ps| && Some(hs[i]) == ps[i] && forall j :: 0 <= j < i ==> hs[j] != hs[i]
  {
    var front := ps[..|ps| - 1];
    if front != [] {
      CollectIs(front, if i < |front| then i else 0);
    }
  }

  lemma {:induction false} CollectLength(ps: Patterns)
    requires Collect(ps).Some?
    ensures |Collect(ps).value| == |ps|
  {
    if ps != [] {
      CollectIs(ps, 0);
    }
  }

  method NormalizeHosts(raws: seq<string>, ip: IpParser) returns (r: Option<seq<string>>)
    ensures r == HostsOf(raws, ip)
  {
    ghost var ps := NormalizedHosts(raws, ip);
    var hosts: seq<string>, seen: set<string> := [], {};
    for i := 0 to |raws|
      invariant Collect(ps[..i]) == Some(hosts)
      invariant forall h :: h in seen <==> h in hosts
    {
      CollectStep(ps, i, hosts);
      var host := NormalizeHost(raws[i], ip);
      if host.None? || host.value in seen { return None; }
      seen := seen + {host.value};
      hosts := hosts + [host.value];
    }
    assert ps[..|raws|] == ps;
    return Some(hosts);
  }

  predicate NameOk(name: string) {
    name != "" && name != "." && name != ".." && |name| <= MaxName && Lower(name) != Unmatched
  }

  /** One route on its own. */
  function NormalizeRoute(r: Route, ip: IpParser): Option<Route> {
    var name, prefix := Trim(r.name), NormalizePrefix(r.prefix);
    if prefix.None? || r.hosts == [] || |r.hosts| > MaxHosts || !NameOk(name) then None
    else
      match HostsOf(r.hosts, ip)
      case None => None
      case Some(hosts) => Some(Route(name, hosts, prefix.value))
  }

  lemma {:induction false} NormalizedRoute(r: Route, ip: IpParser)
    requires Canonical(ip) && NormalizeRoute(r, ip).Some?
    ensures WellFormed(NormalizeRoute(r, ip).value)
  {
    var ps, hosts := NormalizedHosts(r.hosts, ip), HostsOf(r.hosts, ip).value;
    CollectIs(ps, 0);
    forall i | 0 <= i < |hosts| ensures HostText(hosts[i]) {
      CollectIs(ps, i);
      NormalizedHost(r.hosts[i], ip, hosts[i]);
    }
    NormalizedPrefix(r.prefix);
  }

  function Key(host: string, prefix: string): string {
    host + [NUL] + prefix
  }

  /** Host patterns hold no NUL, so a key gives back its host and prefix. */
  lemma {:induction false} KeyInjective(h: string, p: string, g: string, q: string)
    requires HostText(h) && HostText(g) && Key(h, p) == Key(g, q)
    ensures h == g && p == q
  {
    var k := Key(h, p);
    assert forall i :: 0 <= i < |h| ==> k[i] == h[i];
    assert forall i :: 0 <= i < |g| ==> k[i] == g[i];
    assert k[|h|] == NUL && k[|g|] == NUL && !HostChar(NUL);
    assert k[..|h|] == h && k[..|g|] == g && k[|h| + 1..] == p && k[|g| + 1..] == q;
  }

  function KeysOf(r: Route): set<string> {
    set i | 0 <= i < |r.hosts| :: Key(r.hosts[i], r.prefix)
  }

  lemma {:induction false} KeysMeetIffShared(a: Route, b: Route)
    requires WellFormed(a) && WellFormed(b)
    ensures KeysOf(a) !! KeysOf(b) <==> !Shares(a, b)
  {
    if k :| k in KeysOf(a) && k in KeysOf(b) {
      var i :| 0 <= i < |a.hosts| && Key(a.hosts[i], a.prefix) == k;
      var j :| 0 <= j < |b.hosts| && Key(b.hosts[j], b.prefix) == k;
      KeyInjective(a.hosts[i], a.prefix, b.hosts[j], b.prefix);
    }
    if Shares(a, b) {
      var i :| 0 <= i < |a.hosts| && a.hosts[i] in b.hosts;
      var j :| 0 <= j < |b.hosts| && b.hosts[j] == a.hosts[i];
      assert Key(a.hosts[i], a.prefix) in KeysOf(a) && Key(b.hosts[j], b.prefix) in KeysOf(b);
    }
  }

  function AllKeys(t: seq<Route>): set<string> {
    if t == [] then {} else AllKeys(t[..|t| - 1]) + KeysOf(t[|t| - 1])
  }

  function AllNames(t: seq<Route>): set<string> {
    if t == [] then {} else AllNames(t[..|t| - 1]) + {Lower(t[|t| - 1].name)}
  }

  predicate Fits(t: seq<Route>, r: Route) {
    Lower(r.name) !in AllNames(t) && KeysOf(r) !! AllKeys(t)
  }

  /** What the running sets test: the new route is apart from every earlier one. */
  lemma {:induction false} FitsIffApart(t: seq<Route>, r: Route)
    requires WellFormed(r) && forall i :: 0 <= i < |t| ==> WellFormed(t[i])
    ensures Fits(t, r) <==> forall i :: 0 <= i < |t| ==> Apart(t[i], r)
  {
    if t != [] {
      var front, last := t[..|t| - 1], t[|t| - 1];
      FitsIffApart(front, r);
      KeysMeetIffShared(last, r);
      assert Fits(t, r) <==> Fits(front, r) && Apart(last, r);
      assert (forall i :: 0 <= i < |t| ==> Apart(t[i], r)) <==> (forall i :: 0 <= i < |front| ==> Apart(front[i], r)) && Apart(last, r) by {
        assert forall i :: 0 <= i < |front| ==> front[i] == t[i];
      }
    }
  }

  type Normals = seq<Option<Route>>

  function Normalized(raws: seq<Route>, ip: IpParser): Normals {
    seq(|raws|, i requires 0 <= i < |raws| => NormalizeRoute(raws[i], ip))
  }

  /** The table, route by route. */
  function Assemble(ns: Normals): Option<seq<Route>> {
    if ns == [] then Some([])
    else
      var front, r := Assemble(ns[..|ns| - 1]), ns[|ns| - 1];
      if front.Some? && r.Some? && Fits(front.value, r.value) then Some(front.value + [r.value]) else None
  }

  lemma {:induction false} AssemblePrefix(ns: Normals, n: nat)
    requires n <= |ns| && Assemble(ns).Some?
    ensures Assemble(ns[..n]).Some?
  {
    if n < |ns| {
      AssemblePrefix(ns[..|ns| - 1], n);
      assert ns[..|ns| - 1][..n] == ns[..n];
    } else {
      assert ns[..n] == ns;
    }
  }

  /** One more route either extends the table or refuses it for good. */
  lemma {:induction false} AssembleStep(ns: Normals, i: nat, routes: seq<Route>)
    requires i < |ns| && Assemble(ns[..i]) == Some(routes)
    ensures ns[i].Some? && Fits(routes, ns[i].value) ==> Assemble(ns[..i + 1]) == Some(routes + [ns[i].value])
    ensures ns[i].None? || !Fits(routes, ns[i].value) ==> Assemble(ns).None?
    ensures ns[i].Some? ==> var r := ns[i].value;
              AllNames(routes + [r]) == AllNames(routes) + {Lower(r.name)} && AllKeys(routes + [r]) == AllKeys(routes) + KeysOf(r)
  {
    assert ns[..i + 1][..i] == ns[..i];
    if Assemble(ns).Some? {
      AssemblePrefix(ns, i + 1);
    }
    if ns[i].Some? {
      assert (routes + [ns[i].value])[..|routes|] == routes;
    }
  }

  /** The part of the loop that claims a route's selectors. */
  method Claim(r: Route, selectors: map<string, string>) returns (ok: bool, claimed: map<string, string>)
    requires forall i, j :: 0 <= i < j < |r.hosts| ==> r.hosts[i] != r.hosts[j]
    ensures ok <==> KeysOf(r) !! selectors.Keys
    ensures ok ==> claimed.Keys == selectors.Keys + KeysOf(r)
  {
    claimed := selectors;
    for i := 0 to |r.hosts|
      invariant claimed.Keys == selectors.Keys + KeysOf(r.(hosts := r.hosts[..i]))
      invariant KeysOf(r.(hosts := r.hosts[..i])) !! selectors.Keys
    {
      var key := Key(r.hosts[i], r.prefix);
      KeysGrow(r, i);
      if key in claimed { return false, claimed; }
      claimed := claimed[key := r.name];
    }
    assert r.hosts[..|r.hosts|] == r.hosts;
    ok := true;
  }

  lemma {:induction false} SameKeyIff(h: string, g: string, p: string)
    ensures Key(h, p) == Key(g, p) <==> h == g
  {
    if Key(h, p) == Key(g, p) {
      assert |h| == |g| && Key(h, p)[..|h|] == h && Key(g, p)[..|g|] == g;
    }
  }

  lemma {:induction false} KeysGrow(r: Route, i: nat)
    requires i < |r.hosts| && forall i, j :: 0 <= i < j < |r.hosts| ==> r.hosts[i] != r.hosts[j]
    ensures var k := Key(r.hosts[i], r.prefix);
            && k in KeysOf(r) && k !in KeysOf(r.(hosts := r.hosts[..i]))
            && KeysOf(r.(hosts := r.hosts[..i + 1])) == KeysOf(r.(hosts := r.hosts[..i])) + {k}
  {
    var a, b := r.(hosts := r.hosts[..i]), r.(hosts := r.hosts[..i + 1]);
    var k := Key(r.hosts[i], r.prefix);
    forall j | 0 <= j < i ensures Key(r.hosts[j], r.prefix) != k {
      SameKeyIff(r.hosts[j], r.hosts[i], r.prefix);
    }
    assert forall j :: 0 <= j < i ==> a.hosts[j] == b.hosts[j] == r.hosts[j];
    assert b.hosts[i] == r.hosts[i];
  }

  method Load(raws: seq<Route>, ip: IpParser) returns (table: Option<seq<Route>>)
    ensures table == if 0 < |raws| <= MaxRoutes then Assemble(Normalized(raws, ip)) else None
  {
    if |raws| == 0 || |raws| > MaxRoutes { return None; }
    ghost var ns := Normalized(raws, ip);
    var routes: seq<Route>, names: set<string>, selectors: map<string, string> := [], {}, map[];
    for i := 0 to |raws|
      invariant Assemble(ns[..i]) == Some(routes)
      invariant names == AllNames(routes) && selectors.Keys == AllKeys(routes)
    {
      AssembleStep(ns, i, routes);
      var fits, r, claimed := LoadRoute(raws[i], ip, names, selectors);
      if !fits { return None; }
      names, selectors := names + {Lower(r.name)}, claimed;
      routes := routes + [r];
    }
    assert ns[..|raws|] == ns;
    return Some(routes);
  }

  /** One turn of the loop. */
  method LoadRoute(raw: Route, ip: IpParser, names: set<string>, selectors: map<string, string>)
    returns (ok: bool, r: Route, claimed: map<string, string>)
    ensures ok <==> var n := NormalizeRoute(raw, ip); n.Some? && Lower(n.value.name) !in names && KeysOf(n.value) !! selectors.Keys
    ensures ok ==> Some(r) == NormalizeRoute(raw, ip) && claimed.Keys == selectors.Keys + KeysOf(r)
  {
    r, claimed := raw.(name := Trim(raw.name)), selectors;
    var prefix := NormalizePrefix(r.prefix);
    if prefix.None? { return false, r, claimed; }
    r := r.(prefix := prefix.value);
    if r.name == "" || |r.hosts| == 0 { return false, r, claimed; }
    if r.name == "." || r.name == ".." || |r.name| > MaxName || |r.hosts| > MaxHosts { return false, r, claimed; }
    if Lower(r.name) == Unmatched || Lower(r.name) in names { return false, r, claimed; }
    var hosts := NormalizeHosts(r.hosts, ip);
    if hosts.None? { return false, r, claimed; }
    forall i, j | 0 <= i < j < |hosts.value| ensures hosts.value[i] != hosts.value[j] {
      CollectLength(NormalizedHosts(raw.hosts, ip));
      CollectIs(NormalizedHosts(raw.hosts, ip), j);
    }
    r := r.(hosts := hosts.value);
    ok, claimed := Claim(r, selectors);
  }

  ghost predicate AllWellFormed(ns: Normals) {
    forall i :: 0 <= i < |ns| && ns[i].Some? ==> WellFormed(ns[i].value)
  }

  /** Every route is acceptable on its own and no two clash. */
  ghost predicate Acceptable(ns: Normals) {
    && (forall i :: 0 <= i < |ns| ==> ns[i].Some?)
    && forall i, j :: 0 <= i < j < |ns| ==> Apart(ns[i].value, ns[j].value)
  }

  lemma {:induction false} ExtendValid(t: seq<Route>, r: Route)
    requires Valid(t) && WellFormed(r) && Fits(t, r)
    ensures Valid(t + [r])
  {
    FitsIffApart(t, r);
    var u := t + [r];
    forall i, j | 0 <= i < j < |u| ensures Apart(u[i], u[j]) {
      assert j < |t| ==> Apart(t[i], t[j]);
    }
  }

  lemma {:induction false} AssembledAt(ns: Normals, i: nat)
    requires Assemble(ns).Some? && i < |ns|
    ensures |Assemble(ns).value| == |ns| && Some(Assemble(ns).value[i]) == ns[i]
  {
    var front := ns[..|ns| - 1];
    if front != [] {
      AssembledAt(front, if i < |front| then i else 0);
    }
  }

  lemma {:induction false} AssembledIsValid(ns: Normals)
    requires AllWellFormed(ns) && Assemble(ns).Some?
    ensures Valid(Assemble(ns).value)
  {
    if ns != [] {
      AssembledIsValid(ns[..|ns| - 1]);
      ExtendValid(Assemble(ns[..|ns| - 1]).value, ns[|ns| - 1].value);
    }
  }

  lemma {:induction false} AssembledIsAcceptable(ns: Normals)
    requires AllWellFormed(ns) && Assemble(ns).Some?
    ensures Acceptable(ns)
  {
    var t := Assemble(ns).value;
    AssembledIsValid(ns);
    forall i | 0 <= i < |ns| ensures |t| == |ns| && Some(t[i]) == ns[i] {
      AssembledAt(ns, i);
    }
    forall i, j | 0 <= i < j < |ns| ensures Apart(ns[i].value, ns[j].value) {
      assert Apart(t[i], t[j]);
    }
  }

  lemma {:induction false} AcceptableAssembles(ns: Normals)
    requires AllWellFormed(ns) && Acceptable(ns)
    ensures Assemble(ns).Some?
  {
    if ns != [] {
      var front, last := ns[..|ns| - 1], ns[|ns| - 1].value;
      AcceptableAssembles(front);
      AssembledIsValid(front);
      var t := Assemble(front).value;
      forall i | 0 <= i < |t| ensures Apart(t[i], last) {
        SameLength(front);
        AssembledAt(front, i);
        assert Apart(ns[i].value, ns[|ns| - 1].value);
      }
      FitsIffApart(t, last);
    }
  }

  lemma {:induction false} SameLength(ns: Normals)
    requires Assemble(ns).Some?
    ensures |Assemble(ns).value| == |ns|
  {
    if ns != [] {
      SameLength(ns[..|ns| - 1]);
    }
  }

  /** A table loads exactly when its routes are acceptable, and is then validated. */
  lemma {:induction false} LoadsIffAcceptable(raws: seq<Route>, ip: IpParser)
    requires Canonical(ip)
    ensures var ns := Normalized(raws, ip);
            (Assemble(ns).Some? <==> Acceptable(ns)) && (Assemble(ns).Some? ==> Valid(Assemble(ns).value))
  {
    var ns := Normalized(raws, ip);
    forall i | 0 <= i < |ns| && ns[i].Some? ensures WellFormed(ns[i].value) {
      NormalizedRoute(raws[i], ip);
    }
    if Assemble(ns).Some? {
      AssembledIsAcceptable(ns);
      AssembledIsValid(ns);
    } else if Acceptable(ns) {
      AcceptableAssembles(ns);
    }
  }

  // ---- What is accepted, and loading twice ----

  /** An address written canonically is read as itself. */
  ghost predicate Stable(ip: IpParser) {
    Canonical(ip) && forall s :: ip(s).Some? ==> ip(ip(s).value) == ip(s) && Lacks(ip(s).value, '*')
  }

  lemma {:induction false} HostTextIsPlain(s: string)
    requires HostText(s)
    ensures !HasForbidden(s) && Unbracketed(s).None? && DropDot(Lower(Trim(s))) == s
  {
    assert s[|s| - 1..][0] == s[|s| - 1];
    assert HostChar(s[0]) && HostChar(s[|s| - 1]);
    assert Lower(s) == s;
    forall i | 0 <= i < |s| ensures s[i] !in " \t\r\n/\\?#@" {
      HostCharIsPlain(s[i]);
    }
  }

  lemma {:induction false} HostCharIsPlain(c: char)
    requires HostChar(c)
    ensures c !in " \t\r\n/\\?#@" && !IsSpace(c) && c != '['
  {
  }

  lemma {:induction false} LabelsLackOthers(s: string)
    requires forall i :: 0 <= i < |Split(s, '.')| ==> LabelText(Split(s, '.')[i])
    ensures Lacks(s, ':') && Lacks(s, '*')
  {
    if s != "" {
      var front, c := s[..|s| - 1], s[|s| - 1];
      var f, g := Split(front, '.'), Split(s, '.');
      forall i | 0 <= i < |f| ensures LabelText(f[i]) {
        assert LabelText(g[i]);
        assert c != '.' && i == |f| - 1 ==> f[i] == g[i][..|f[i]|];
      }
      LabelsLackOthers(front);
      assert LabelText(g[|g| - 1]);
      assert c != '.' ==> g[|g| - 1][|g[|g| - 1]| - 1] == c;
    }
  }

  lemma {:induction false} HostnameLacksOthers(s: string)
    requires IsHostname(s)
    ensures Lacks(s, ':') && Lacks(s, '*') && HostText(s)
  {
    var g := Split(s, '.');
    forall i | 0 <= i < |g| ensures LabelText(g[i]) {
      assert IsLabel(g[i]);
    }
    LabelsLackOthers(s);
    HostnameIsHostText(s);
  }

  /** Whatever its case, blanks around it and a dot at its end: a hostname is accepted as its folded self, alone or under a wildcard. */
  lemma {:induction false} HostnameAccepted(raw: string, wild: string, h: string, ip: IpParser)
    requires IsHostname(h) && ip(h).None?
    ensures DropDot(Lower(Trim(raw))) == h ==> NormalizeHost(raw, ip) == Some(h)
    ensures DropDot(Lower(Trim(wild))) == "*." + h ==> NormalizeHost(wild, ip) == Some("*." + h)
  {
    HostnameLacksOthers(h);
    HostTextIsPlain(h);
    WildcardText(h);
    assert h != "*" && !IsWildcard(h) by {
      assert h[0] != '*';
    }
  }

  lemma {:induction false} WildcardText(h: string)
    requires HostText(h)
    ensures HostText("*." + h) && IsWildcard("*." + h) && ("*." + h)[2..] == h && !HasForbidden("*." + h)
  {
    var w := "*." + h;
    assert w[..2] == "*." && w[2..] == h;
    forall i | 0 <= i < |w| ensures HostChar(w[i]) {
      assert i >= 2 ==> w[i] == h[i - 2];
    }
    HostTextIsPlain(w);
  }

  /** An address is accepted in its canonical form. */
  lemma {:induction false} AddressAccepted(raw: string, ip: IpParser)
    requires var v := DropDot(Lower(Trim(raw)));
             v != "" && v != "*" && !HasForbidden(v) && Lacks(v, '*') && Unbracketed(v).None? && ip(v).Some?
    ensures NormalizeHost(raw, ip) == ip(DropDot(Lower(Trim(raw))))
  {
    var v := DropDot(Lower(Trim(raw)));
    assert !IsWildcard(v) by {
      assert v[0] != '*';
    }
  }

  lemma {:induction false} ExactTwice(value: string, ip: IpParser, h: string)
    requires Stable(ip) && NormalizeExact(value, ip) == Some(h)
    ensures NormalizeExact(h, ip) == Some(h) && HostText(h) && Lacks(h, '*')
    ensures ip(h).None? ==> IsHostname(h)
  {
    NormalizedExact(value, ip);
    HostTextIsPlain(h);
    if IsHostname(value) {
      HostnameLacksOthers(value);
    }
  }

  lemma {:induction false} PlainIsExact(h: string, ip: IpParser)
    requires HostText(h) && Lacks(h, '*')
    ensures NormalizeHost(h, ip) == NormalizeExact(h, ip)
  {
    HostTextIsPlain(h);
    assert h[0] != '*';
    assert !IsWildcard(h);
  }

  lemma {:induction false} WildcardIsExact(suffix: string, ip: IpParser)
    requires HostText(suffix) && Lacks(suffix, '*') && NormalizeExact(suffix, ip) == Some(suffix) && ip(suffix).None?
    ensures NormalizeHost("*." + suffix, ip) == Some("*." + suffix)
  {
    WildcardText(suffix);
    HostTextIsPlain("*." + suffix);
  }

  /** What a pattern is normalised to: any host, an exact host, or a wildcard over a name. */
  lemma {:induction false} FoldedCases(v: string, ip: IpParser, h: string) returns (suffix: string)
    requires NormalizeFolded(v, ip) == Some(h)
    ensures h == "*" || NormalizeExact(v, ip) == Some(h)
            || (IsWildcard(v) && NormalizeExact(v[2..], ip) == Some(suffix) && ip(suffix).None? && h == "*." + suffix)
  {
    suffix := "";
    if v != "*" && IsWildcard(v) {
      suffix := NormalizeExact(v[2..], ip).value;
    }
  }

  /** Normalising a normalised pattern changes nothing. */
  lemma {:induction false} HostTwice(raw: string, ip: IpParser, h: string)
    requires Stable(ip) && NormalizeHost(raw, ip) == Some(h)
    ensures NormalizeHost(h, ip) == Some(h)
  {
    var v := DropDot(Lower(Trim(raw)));
    var suffix := FoldedCases(v, ip, h);
    if h == "*" {
      HostTextIsPlain("*");
    } else if NormalizeExact(v, ip) == Some(h) {
      ExactTwice(v, ip, h);
      PlainIsExact(h, ip);
    } else {
      ExactTwice(v[2..], ip, suffix);
      WildcardIsExact(suffix, ip);
    }
  }

  /** A clean prefix is accepted as it stands, and so is one with a slash at its end, without the slash. */
  lemma {:induction false} PrefixAccepted(p: string)
    requires IsClean(p) && Trim(p) == p && Lacks(p, '?') && Lacks(p, '#') && Lacks(p, '%')
    ensures NormalizePrefix(p) == Some(p)
    ensures |p| > 1 ==> NormalizePrefix(p + "/") == Some(p)
  {
    if |p| > 1 {
      SlashDropped(p);
    }
  }

  /** A slash at the end leaves an empty segment. */
  lemma {:induction false} EndsEmpty(p: string)
    requires HasPrefix(p, "/")
    ensures !IsClean(p + "/")
  {
    var q := p + "/";
    var r := p[1..] + "/";
    assert q[1..] == r && r[..|r| - 1] == p[1..] && r[|r| - 1] == '/';
    var segments := Split(r, '/');
    assert segments[|segments| - 1] == "";
    assert "" in segments;
  }

  /** White space stands before the slash at the end. */
  predicate BlankBeforeSlash(raw: string) {
    var v := Trim(raw);
    |v| > 1 && v[|v| - 1] == '/' && IsSpace(v[|v| - 2])
  }

  lemma {:induction false} DroppedSlash(v: string, p: string)
    requires v == p + "/" && Tight(v) && HasPrefix(p, "/")
    ensures Tight(p) <==> !IsSpace(v[|v| - 2])
    ensures IsSpace(v[|v| - 2]) ==> Trim(p) != p
  {
    assert p[0] == '/' by {
      assert p[..1] == "/";
    }
    assert v[|v| - 2] == p[|p| - 1];
    var pre, post := TrimSplits(p);
  }

  /** A normalised prefix is read as itself exactly when no blank stood before the slash that was dropped. */
  lemma {:induction false} PrefixTwiceIff(raw: string, p: string)
    requires NormalizePrefix(raw) == Some(p)
    ensures NormalizePrefix(p) == Some(p) <==> !BlankBeforeSlash(raw)
  {
    var v := Trim(raw);
    var pre, post := TrimSplits(raw);
    NormalizedPrefix(raw);
    assert p != "" && p[0] == '/' by {
      assert p[..1] == "/";
    }
    if v == "" || v == "/" {
      TightStays("/");
    } else if IsClean(v) {
      TightStays(v);
      if |v| > 1 && v[|v| - 1] == '/' {
        SlashEndIsUnclean(v);
      }
    } else {
      assert v == p + "/" by {
        assert v[|v| - 1..] == "/" && v == v[..|v| - 1] + v[|v| - 1..];
      }
      DroppedSlash(v, p);
      if !BlankBeforeSlash(raw) {
        TightStays(p);
      } else if Trim(p) != "" {
        TrimmedIsOther(p);
      }
    }
  }

  lemma {:induction false} TrimShortens(p: string)
    ensures Trim(p) == p || |Trim(p)| < |p|
  {
    var pre, post := TrimSplits(p);
    if pre == "" && post == "" {
      assert p == Trim(p);
    }
  }

  /** What trimming shortens is not normalised to itself. */
  lemma {:induction false} TrimmedIsOther(p: string)
    requires Trim(p) != p && HasPrefix(p, "/")
    ensures NormalizePrefix(p) != Some(p)
  {
    TrimShortens(p);
    TightStays("/");
  }

  lemma {:induction false} SlashEndIsUnclean(v: string)
    requires HasPrefix(v, "/") && |v| > 1 && v[|v| - 1] == '/'
    ensures !IsClean(v)
  {
    var p := v[..|v| - 1];
    assert v == p + "/" && p[..1] == v[..1];
    EndsEmpty(p);
  }

  /** A single segment after the slash is clean. */
  lemma {:induction false} OneSegmentIsClean(name: string)
    requires Lacks(name, '/') && name != "" && name != "." && name != ".."
    ensures IsClean("/" + name)
  {
    var p := "/" + name;
    assert p[..1] == "/" && p[1..] == name;
    SplitSingle(name, '/');
  }

  lemma {:induction false} SlashDropped(p: string)
    requires IsClean(p) && |p| > 1 && Lacks(p, '?') && Lacks(p, '#') && Lacks(p, '%')
    ensures NormalizePrefix(p + "/") == Some(p)
  {
    var v := p + "/";
    assert v[..1] == p[..1] && v[|v| - 1..] == "/" && v[..|v| - 1] == p;
    assert p[..1][0] == p[0];
    TightStays(v);
    EndsEmpty(p);
  }

  lemma {:induction false} BlankDropped(p: string)
    requires IsClean(p) && Tight(p) && Lacks(p, '?') && Lacks(p, '#') && Lacks(p, '%')
    ensures NormalizePrefix(p + " ") == Some(p)
  {
    assert p + " " == "" + p + " ";
    TrimUndoesPadding("", p, " ");
    assert p != "" by {
      assert p[..1] == "/";
    }
  }

  /** It happens: the prefix of such a route loses a blank when the table is loaded again. */
  lemma {:induction false} BlankIsLost(name: string)
    requires Tight(name) && Lacks(name, '/') && name != "" && name != "." && name != ".."
    requires Lacks(name, '?') && Lacks(name, '#') && Lacks(name, '%')
    ensures NormalizePrefix("/" + name + " /") == Some("/" + name + " ")
    ensures NormalizePrefix("/" + name + " ") == Some("/" + name)
  {
    var p, q := "/" + name, "/" + (name + " ");
    OneSegmentIsClean(name);
    BlankDropped(p);
    assert (name + " ")[0] == name[0] && !IsSpace(name[0]);
    assert name + " " != "." && name + " " != ".." by {
      assert (name + " ")[|name|] == ' ';
    }
    OneSegmentIsClean(name + " ");
    SlashDropped(q);
    assert q == p + " " && q + "/" == "/" + name + " /";
  }

  lemma {:induction false} TrimAgain(t: string)
    ensures Trim(Trim(t)) == Trim(t)
  {
    var pre, post := TrimSplits(t);
    TightStays(Trim(t));
  }

  lemma {:induction false} HostsTwice(raws: seq<string>, ip: IpParser)
    requires Stable(ip) && HostsOf(raws, ip).Some?
    ensures HostsOf(HostsOf(raws, ip).value, ip) == HostsOf(raws, ip)
  {
    var ps, hosts := NormalizedHosts(raws, ip), HostsOf(raws, ip).value;
    CollectLength(ps);
    forall i | 0 <= i < |hosts| ensures NormalizeHost(hosts[i], ip) == ps[i] {
      CollectIs(ps, i);
      HostTwice(raws[i], ip, hosts[i]);
    }
    assert NormalizedHosts(hosts, ip) == ps;
  }

  lemma {:induction false} RouteTwiceIff(raw: Route, ip: IpParser, r: Route)
    requires Stable(ip) && NormalizeRoute(raw, ip) == Some(r)
    ensures NormalizeRoute(r, ip) == Some(r) <==> !BlankBeforeSlash(raw.prefix)
  {
    TrimAgain(raw.name);
    PrefixTwiceIff(raw.prefix, r.prefix);
    HostsTwice(raw.hosts, ip);
    CollectLength(NormalizedHosts(raw.hosts, ip));
  }

  /** A loaded table is a fixed point: loading it again gives it back, exactly when no raw prefix has a blank before its last slash. */
  lemma {:induction false} LoadTwiceIff(raws: seq<Route>, ip: IpParser, t: seq<Route>)
    requires Stable(ip) && Assemble(Normalized(raws, ip)) == Some(t)
    ensures Assemble(Normalized(t, ip)) == Some(t) <==> forall i :: 0 <= i < |raws| ==> !BlankBeforeSlash(raws[i].prefix)
  {
    var ns := Normalized(raws, ip);
    SameLength(ns);
    forall i | 0 <= i < |t| ensures ns[i] == Some(t[i]) && (NormalizeRoute(t[i], ip) == Some(t[i]) <==> !BlankBeforeSlash(raws[i].prefix)) {
      AssembledAt(ns, i);
      RouteTwiceIff(raws[i], ip, t[i]);
    }
    if forall i :: 0 <= i < |raws| ==> !BlankBeforeSlash(raws[i].prefix) {
      assert Normalized(t, ip) == ns;
    }
    if i :| 0 <= i < |raws| && BlankBeforeSlash(raws[i].prefix) && Assemble(Normalized(t, ip)) == Some(t) {
      AssembledAt(Normalized(t, ip), i);
    }
  }

  // ---- EdgeProxy's own check of the same table ----

  /** A selector key and the name of a route that claims it. */
  type Claims = set<(string, string)>

  /** The claims of one route; an empty host claims nothing. */
  function ClaimsBy(r: Route): Claims {
    set i | 0 <= i < |r.hosts| && r.hosts[i] != "" :: (Key(r.hosts[i], r.prefix), r.name)
  }

  function AllClaims(t: seq<Route>): Claims {
    if t == [] then {} else AllClaims(t[..|t| - 1]) + ClaimsBy(t[|t| - 1])
  }

  /** Some key is claimed under two names. */
  ghost predicate Contested(claims: Claims) {
    exists k, x, y :: (k, x) in claims && (k, y) in claims && x != y
  }

  /** The owner map after these claims: each key belongs to a claimant, to all of them unless there was a conflict. */
  ghost predicate Books(owners: map<string, string>, conflicts: nat, claims: Claims) {
    && (forall k :: k in owners ==> (k, owners[k]) in claims)
    && (conflicts == 0 ==> forall k, x :: (k, x) in claims ==> k in owners && owners[k] == x)
    && (conflicts > 0 ==> Contested(claims))
  }

  lemma {:induction false} BookOne(owners: map<string, string>, conflicts: nat, claims: Claims, key: string, name: string)
    requires Books(owners, conflicts, claims)
    ensures var after := claims + {(key, name)};
            if key in owners && owners[key] != name then Books(owners, conflicts + 1, after)
            else Books(owners[key := name], conflicts, after)
  {
    var after := claims + {(key, name)};
    if key in owners && owners[key] != name {
      assert (key, owners[key]) in after && (key, name) in after;
    } else if conflicts > 0 {
      var k, x, y :| (k, x) in claims && (k, y) in claims && x != y;
      assert (k, x) in after && (k, y) in after;
    }
  }

  /** The books balance: no conflict was counted exactly when no key is contested. */
  lemma {:induction false} BooksTell(owners: map<string, string>, conflicts: nat, claims: Claims)
    requires Books(owners, conflicts, claims)
    ensures conflicts == 0 <==> !Contested(claims)
  {
  }

  /** One route's hosts: a key held under another name is a conflict and stays with its owner. */
  method ClaimOrReport(r: Route, before: nat, owners: map<string, string>, ghost claims: Claims)
    returns (conflicts: nat, claimed: map<string, string>)
    requires Books(owners, before, claims)
    ensures Books(claimed, conflicts, claims + ClaimsBy(r))
  {
    conflicts, claimed := before, owners;
    for i := 0 to |r.hosts|
      invariant Books(claimed, conflicts, claims + ClaimsBy(r.(hosts := r.hosts[..i])))
    {
      ClaimsAdd(r, i);
      if r.hosts[i] == "" { continue; }
      var key := Key(r.hosts[i], r.prefix);
      ghost var sofar := claims + ClaimsBy(r.(hosts := r.hosts[..i]));
      BookOne(claimed, conflicts, sofar, key, r.name);
      assert sofar + {(key, r.name)} == claims + ClaimsBy(r.(hosts := r.hosts[..i + 1]));
      if key in claimed && claimed[key] != r.name {
        conflicts := conflicts + 1;
      } else {
        claimed := claimed[key := r.name];
      }
    }
    assert r.hosts[..|r.hosts|] == r.hosts;
  }

  lemma {:induction false} ClaimsAdd(r: Route, i: nat)
    requires i < |r.hosts|
    ensures ClaimsBy(r.(hosts := r.hosts[..i + 1]))
         == ClaimsBy(r.(hosts := r.hosts[..i])) + (if r.hosts[i] == "" then {} else {(Key(r.hosts[i], r.prefix), r.name)})
  {
    var a, b := r.(hosts := r.hosts[..i]), r.(hosts := r.hosts[..i + 1]);
    assert forall j :: 0 <= j < i ==> a.hosts[j] == b.hosts[j];
    assert b.hosts[i] == r.hosts[i];
  }

  /** The selector part of EdgeProxy's validation, for any list of routes. */
  method ValidateSelectors(routes: seq<Route>) returns (conflicts: nat)
    ensures conflicts == 0 <==> !Contested(AllClaims(routes))
  {
    conflicts := 0;
    var owners: map<string, string> := map[];
    for n := 0 to |routes|
      invariant Books(owners, conflicts, AllClaims(routes[..n]))
    {
      assert routes[..n + 1][..n] == routes[..n];
      conflicts, owners := ClaimOrReport(routes[n], conflicts, owners, AllClaims(routes[..n]));
    }
    assert routes[..|routes|] == routes;
    BooksTell(owners, conflicts, AllClaims(routes));
  }

  lemma {:induction false} ClaimedIff(t: seq<Route>, k: string, x: string)
    ensures (k, x) in AllClaims(t) <==> exists i :: 0 <= i < |t| && (k, x) in ClaimsBy(t[i])
  {
    if t != [] {
      var front := t[..|t| - 1];
      ClaimedIff(front, k, x);
      assert forall i :: 0 <= i < |front| ==> front[i] == t[i];
    }
  }

  lemma {:induction false} SharedClaim(a: Route, b: Route, k: string)
    requires WellFormed(a) && WellFormed(b) && (k, a.name) in ClaimsBy(a) && (k, b.name) in ClaimsBy(b)
    ensures Shares(a, b)
  {
    var i :| 0 <= i < |a.hosts| && Key(a.hosts[i], a.prefix) == k;
    var j :| 0 <= j < |b.hosts| && Key(b.hosts[j], b.prefix) == k;
    KeyInjective(a.hosts[i], a.prefix, b.hosts[j], b.prefix);
  }

  lemma {:induction false} SharersClaim(a: Route, b: Route) returns (k: string)
    requires WellFormed(a) && WellFormed(b) && Shares(a, b)
    ensures (k, a.name) in ClaimsBy(a) && (k, b.name) in ClaimsBy(b)
  {
    var i :| 0 <= i < |a.hosts| && a.hosts[i] in b.hosts;
    var j :| 0 <= j < |b.hosts| && b.hosts[j] == a.hosts[i];
    k := Key(a.hosts[i], a.prefix);
  }

  /** EdgeProxy counts a conflict exactly when two routes of different names share host and prefix. */
  lemma {:induction false} ContestedIffShared(t: seq<Route>)
    requires forall i :: 0 <= i < |t| ==> WellFormed(t[i])
    ensures Contested(AllClaims(t)) <==> exists i, j :: 0 <= i < |t| && 0 <= j < |t| && t[i].name != t[j].name && Shares(t[i], t[j])
  {
    if k, x, y :| (k, x) in AllClaims(t) && (k, y) in AllClaims(t) && x != y {
      ClaimedIff(t, k, x);
      ClaimedIff(t, k, y);
      var i :| 0 <= i < |t| && (k, x) in ClaimsBy(t[i]);
      var j :| 0 <= j < |t| && (k, y) in ClaimsBy(t[j]);
      SharedClaim(t[i], t[j], k);
    }
    if i, j :| 0 <= i < |t| && 0 <= j < |t| && t[i].name != t[j].name && Shares(t[i], t[j]) {
      var k := SharersClaim(t[i], t[j]);
      ClaimedIff(t, k, t[i].name);
      ClaimedIff(t, k, t[j].name);
      assert (k, t[i].name) in AllClaims(t) && (k, t[j].name) in AllClaims(t);
    }
  }

  /** On the routes that SecurityEdge loads, EdgeProxy sees no selector conflict either. */
  lemma {:induction false} LoadedIsUncontested(t: seq<Route>)
    requires Valid(t)
    ensures !Contested(AllClaims(t))
  {
    ContestedIffShared(t);
    forall i, j | 0 <= i < |t| && 0 <= j < |t| && t[i].name != t[j].name ensures !Shares(t[i], t[j]) {
      SharesSymmetric(t[i], t[j]);
      assert i < j ==> Apart(t[i], t[j]);
      assert j < i ==> Apart(t[j], t[i]);
    }
  }
}
