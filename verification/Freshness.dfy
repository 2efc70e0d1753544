/**
 Freshness of stored responses (RFC 9111, sections 4.2, 4.2.3 and 5.2.1.1).

 Times and durations are integers in nanoseconds. Durations are 64-bit in the
 program: the difference of two times saturates and the subtraction of two
 durations wraps around, and both are written out here.
 */
module Freshness {
  import opened Text
  import opened CacheControl
  import opened LruCache

  const SECOND := 1_000_000_000
  const MAX := 0x7fff_ffff_ffff_ffff
  const MIN := -0x8000_0000_0000_0000
  const RANGE := 0x1_0000_0000_0000_0000
  const MAX_AGE_SECONDS := 100 * 365 * 24 * 60 * 60

  function Saturate(d: int): int {
    if d > MAX then MAX else if d < MIN then MIN else d
  }

  /** 64-bit two's complement result of a sum or difference of two durations. */
  function Wrap(d: int): int {
    if d > MAX then d - RANGE else if d < MIN then d + RANGE else d
  }

  // ----- decimal integers ---------------------------------------------------

  function Digits(s: string): Option<int> {
    if s == "" then Some(0)
    else
      var c := s[|s| - 1];
      match Digits(s[..|s| - 1])
      case None => None
      case Some(v) => if '0' <= c <= '9' then Some(10 * v + (c as int - 48)) else None
  }

  function ParseInt64(s: string): Option<int> {
    var signed := s != "" && (s[0] == '+' || s[0] == '-');
    var body := if signed then s[1..] else s;
    if body == "" then None
    else match Digits(body)
      case None => None
      case Some(v) =>
        var x := if signed && s[0] == '-' then -v else v;
        if MIN <= x <= MAX then Some(x) else None
  }

  function DeltaSeconds(value: string): (r: Option<int>)
    ensures r.Some? ==> 0 <= r.value && r.value * SECOND <= MAX
  {
    match ParseInt64(Trim(value))
    case None => None
    case Some(v) => if v < 0 || v > MAX / SECOND then None else Some(v)
  }

  /** The usual decimal notation. */
  function Decimal(n: nat): string {
    (if n < 10 then "" else Decimal(n / 10)) + [(48 + n % 10) as char]
  }

  lemma {:induction false} DigitsAppend(s: string, v: nat, d: nat)
    requires Digits(s) == Some(v) && d < 10
    ensures Digits(s + [(48 + d) as char]) == Some(10 * v + d)
  {
    assert (s + [(48 + d) as char])[..|s|] == s;
  }

  lemma {:induction false} DecimalDigits(n: nat)
    ensures Decimal(n) != "" && Digits(Decimal(n)) == Some(n)
  {
    if n < 10 {
      DigitsAppend("", 0, n);
    } else {
      DecimalDigits(n / 10);
      DigitsAppend(Decimal(n / 10), n / 10, n % 10);
    }
  }

  /** Written seconds are read back exactly as long as they fit a duration, and refused beyond that. */
  lemma {:induction false} DeltaSecondsReadsDecimal(n: nat)
    ensures DeltaSeconds(Decimal(n)) == if n <= MAX / SECOND then Some(n) else None
  {
    ParsedDecimal(n);
  }

  lemma {:induction false} ParsedDecimal(n: nat)
    ensures ParseInt64(Trim(Decimal(n))) == if n <= MAX then Some(n) else None
  {
    DecimalDigits(n);
    var d := Decimal(n);
    OnlyDigits(d);
    assert !IsSpace(d[0]) && !IsSpace(d[|d| - 1]) && Trim(d) == d;
  }

  /** Nothing else is read: an accepted text is, between blanks, an optional sign and digits. */
  lemma {:induction false} DeltaSecondsReadsOnlyDigits(value: string)
    requires DeltaSeconds(value).Some?
    ensures var t := Trim(value);
            && t != ""
            && var body := if t[0] == '+' || t[0] == '-' then t[1..] else t;
               body != "" && (forall i :: 0 <= i < |body| ==> '0' <= body[i] <= '9')
               && Digits(body) == Some(DeltaSeconds(value).value)
  {
    var t := Trim(value);
    var body := if t != "" && (t[0] == '+' || t[0] == '-') then t[1..] else t;
    OnlyDigits(body);
  }

  lemma {:induction false} OnlyDigits(s: string)
    requires Digits(s).Some?
    ensures Digits(s).value >= 0 && forall i :: 0 <= i < |s| ==> '0' <= s[i] <= '9'
  {
    if s != "" {
      OnlyDigits(s[..|s| - 1]);
    }
  }

  // ----- responses ----------------------------------------------------------

  datatype ExpiresField = NoExpires | BadExpires | ExpiresTime(at: int)

  /** The fields of an origin response that decide about storing it. */
  datatype Response = Response(
    status: int, setsCookie: bool, varySupported: bool, cacheControl: seq<string>, pragmaNoCache: bool,
    age: string, date: Option<int>, expires: ExpiresField)

  datatype Config = Config(
    statusCodes: seq<int>, cacheSetCookie: bool, respectOrigin: bool, defaultTTL: int, staleIfError: int)

  datatype Policy = NotCacheable | Store(expiresAt: int, staleUntil: int, initialAge: int)

  /** What the `Age` field says, at most a hundred years; nothing if it is malformed or negative. */
  function AgeField(r: Response): int {
    match ParseInt64(Trim(r.age))
    case None => 0
    case Some(v) => if v < 0 then 0 else (if v > MAX_AGE_SECONDS then MAX_AGE_SECONDS else v) * SECOND
  }

  function InitialAge(r: Response, now: int): (a: int)
    ensures 0 <= a <= MAX
  {
    if r.date.Some? && now > r.date.value && Saturate(now - r.date.value) > AgeField(r)
    then Saturate(now - r.date.value) else AgeField(r)
  }

  /**
   The corrected initial age of RFC 9111, section 4.2.3: the larger of the age the
   response carries and the time since its date, as far as 64 bits reach.
   */
  lemma {:induction false} InitialAgeIsTheLarger(r: Response, now: int)
    ensures var apparent := if r.date.Some? then Saturate(now - r.date.value) else 0;
            var age := InitialAge(r, now);
            age >= AgeField(r) && age >= apparent && (age == AgeField(r) || age == apparent)
  {
  }

  /** A decimal `Age` counts up to a hundred years; one beyond 64 bits counts as none. */
  lemma {:induction false} AgeFieldReadsDecimal(r: Response, n: nat)
    requires r.age == Decimal(n)
    ensures AgeField(r) == (if n > MAX then 0 else if n > MAX_AGE_SECONDS then MAX_AGE_SECONDS else n) * SECOND
  {
    ParsedDecimal(n);
  }

  /** The response may be stored as far as status, cookies, Vary and directives say. */
  predicate Admitted(r: Response, cfg: Config) {
    var p := Parse(r.cacheControl);
    && r.status in cfg.statusCodes
    && (r.setsCookie ==> cfg.cacheSetCookie)
    && r.varySupported
    && (cfg.respectOrigin ==>
          && !p.invalid && "max-age" !in p.duplicates && "s-maxage" !in p.duplicates
          && "no-store" !in p.values && "private" !in p.values && "no-cache" !in p.values && !r.pragmaNoCache)
  }

  predicate MustRevalidate(r: Response, cfg: Config) {
    cfg.respectOrigin && ("must-revalidate" in Parse(r.cacheControl).values || "proxy-revalidate" in Parse(r.cacheControl).values)
  }

  /** The freshness lifetime the response declares, as a mathematical integer; none if it is malformed. */
  function Lifetime(r: Response, cfg: Config, now: int): Option<int> {
    var cc := Parse(r.cacheControl).values;
    if !cfg.respectOrigin then Some(cfg.defaultTTL)
    else if "s-maxage" in cc then
      (match DeltaSeconds(cc["s-maxage"]) case None => None case Some(v) => Some(v * SECOND))
    else if "max-age" in cc then
      (match DeltaSeconds(cc["max-age"]) case None => None case Some(v) => Some(v * SECOND))
    else match r.expires
      case NoExpires => Some(cfg.defaultTTL)
      case BadExpires => None
      case ExpiresTime(at) => Some(at - (if r.date.Some? then r.date.value else now))
  }

  /** Storing decision with the program's 64-bit arithmetic. */
  function ResponsePolicy(r: Response, cfg: Config, now: int): Policy {
    if !Admitted(r, cfg) || Lifetime(r, cfg, now).None? then NotCacheable
    else
      var age := if cfg.respectOrigin then InitialAge(r, now) else 0;
      var ttl := Wrap(Saturate(Lifetime(r, cfg, now).value) - age);
      if ttl <= 0 then NotCacheable
      else Store(now + ttl, now + ttl + (if MustRevalidate(r, cfg) then 0 else cfg.staleIfError), age)
  }

  function AgeAt(r: Response, cfg: Config, now: int): int {
    if cfg.respectOrigin then InitialAge(r, now) else 0
  }

  /** The one case in which the 64-bit subtraction leaves the range. */
  predicate LifetimeUnderflows(r: Response, cfg: Config, now: int)
    requires Lifetime(r, cfg, now).Some?
  {
    Saturate(Lifetime(r, cfg, now).value) - AgeAt(r, cfg, now) < MIN
  }

  /** The entry that is stored: its `storedAt` is moved back by the initial age. */
  function StoredEntry(status: int, header: seq<(string, seq<string>)>, body: string, p: Policy, now: int): Entry
    requires p.Store?
  {
    Entry(status, header, body, now - p.initialAge, p.expiresAt, p.staleUntil)
  }

  /** A stored response expires no later than its declared lifetime after `storedAt`, exactly when nothing underflows. */
  lemma {:induction false} ExpiryWithinLifetimeIff(r: Response, cfg: Config, now: int)
    requires Admitted(r, cfg) && Lifetime(r, cfg, now).Some?
    requires MIN <= cfg.defaultTTL <= MAX
    ensures var p := ResponsePolicy(r, cfg, now);
            (p.Store? ==> p.expiresAt <= (now - p.initialAge) + Lifetime(r, cfg, now).value)
            <==> !LifetimeUnderflows(r, cfg, now)
  {
  }

  /** Declared delta-seconds and the default lifetime never underflow; only an Expires date far in the past can. */
  lemma {:induction false} OnlyExpiresUnderflows(r: Response, cfg: Config, now: int)
    requires Lifetime(r, cfg, now).Some? && cfg.defaultTTL > 0
    requires LifetimeUnderflows(r, cfg, now)
    ensures cfg.respectOrigin && r.expires.ExpiresTime?
    ensures r.expires.at < (if r.date.Some? then r.date.value else now) - (MAX - InitialAge(r, now))
  {
  }

  /** A response that expired three hundred years before its date is stored as fresh for centuries. */
  lemma {:induction false} AncientExpiresIsStored()
    ensures var r := Response(200, false, true, [], false, "1", None, ExpiresTime(0));
            var cfg := Config([200], false, true, SECOND, 0);
            var now := 300 * 365 * 24 * 60 * 60 * SECOND;
            var p := ResponsePolicy(r, cfg, now);
            p.Store? && p.expiresAt > now + 200 * 365 * 24 * 60 * 60 * SECOND
  {
    var r := Response(200, false, true, [], false, "1", None, ExpiresTime(0));
    assert "1"[..0] == "" && Digits("") == Some(0);
    assert Digits("1") == Some(1);
    assert Trim("1") == "1";
    assert ParseInt64("1") == Some(1);
  }

  // ----- which field decides ------------------------------------------------

  /** A reason not to store, read off the parsed header and the configuration. */
  predicate Refused(r: Response, cfg: Config) {
    var p := Parse(r.cacheControl);
    || r.status !in cfg.statusCodes || (r.setsCookie && !cfg.cacheSetCookie) || !r.varySupported
    || (cfg.respectOrigin && (p.invalid || r.pragmaNoCache || "max-age" in p.duplicates || "s-maxage" in p.duplicates
                              || "no-store" in p.values || "private" in p.values || "no-cache" in p.values))
  }

  /** How long a stale copy may be kept at hand. */
  function StaleWindow(r: Response, cfg: Config): int {
    var cc := Parse(r.cacheControl).values;
    if cfg.respectOrigin && ("must-revalidate" in cc || "proxy-revalidate" in cc) then 0 else cfg.staleIfError
  }

  /** The response is kept exactly for what is left of its lifetime, and not at all if nothing is left. */
  predicate KeptFor(p: Policy, now: int, lifetime: int, age: int, stale: int) {
    p == if lifetime > age then Store(now + lifetime - age, now + lifetime - age + stale, age) else NotCacheable
  }

  lemma {:induction false} RefusedIsNotStored(r: Response, cfg: Config, now: int)
    requires Refused(r, cfg)
    ensures ResponsePolicy(r, cfg, now) == NotCacheable
  {
  }

  /** Whatever the lifetime is, short of the underflow the policy keeps the response for the rest of it. */
  lemma {:induction false} KeptForLifetime(r: Response, cfg: Config, now: int, lifetime: int)
    requires !Refused(r, cfg) && Lifetime(r, cfg, now) == Some(lifetime) && lifetime <= MAX
    requires lifetime - AgeAt(r, cfg, now) >= MIN
    ensures KeptFor(ResponsePolicy(r, cfg, now), now, lifetime, AgeAt(r, cfg, now), StaleWindow(r, cfg))
  {
    var age := AgeAt(r, cfg, now);
    assert 0 <= age <= MAX;
    assert Saturate(lifetime) == lifetime && Wrap(lifetime - age) == lifetime - age;
  }

  lemma {:induction false} NoLifetimeIsNotStored(r: Response, cfg: Config, now: int)
    requires Lifetime(r, cfg, now).None?
    ensures ResponsePolicy(r, cfg, now) == NotCacheable
  {
  }

  /** `s-maxage` decides, whatever `max-age` and `Expires` say (RFC 9111, section 5.2.2.10). */
  lemma {:induction false} SharedMaxAgeDecides(r: Response, cfg: Config, now: int)
    requires !Refused(r, cfg) && cfg.respectOrigin && "s-maxage" in Parse(r.cacheControl).values
    ensures match DeltaSeconds(Parse(r.cacheControl).values["s-maxage"])
            case None => ResponsePolicy(r, cfg, now) == NotCacheable
            case Some(n) => KeptFor(ResponsePolicy(r, cfg, now), now, n * SECOND, InitialAge(r, now), StaleWindow(r, cfg))
  {
    var said := DeltaSeconds(Parse(r.cacheControl).values["s-maxage"]);
    if said.None? {
      NoLifetimeIsNotStored(r, cfg, now);
    } else {
      KeptForLifetime(r, cfg, now, said.value * SECOND);
    }
  }

  /** Without it `max-age` decides, whatever `Expires` says. */
  lemma {:induction false} MaxAgeDecides(r: Response, cfg: Config, now: int)
    requires !Refused(r, cfg) && cfg.respectOrigin
    requires "s-maxage" !in Parse(r.cacheControl).values && "max-age" in Parse(r.cacheControl).values
    ensures match DeltaSeconds(Parse(r.cacheControl).values["max-age"])
            case None => ResponsePolicy(r, cfg, now) == NotCacheable
            case Some(n) => KeptFor(ResponsePolicy(r, cfg, now), now, n * SECOND, InitialAge(r, now), StaleWindow(r, cfg))
  {
    var said := DeltaSeconds(Parse(r.cacheControl).values["max-age"]);
    if said.None? {
      NoLifetimeIsNotStored(r, cfg, now);
    } else {
      KeptForLifetime(r, cfg, now, said.value * SECOND);
    }
  }

  /** Without either, `Expires` counted from `Date` or from now decides, short of the underflow. */
  lemma {:induction false} ExpiresDecides(r: Response, cfg: Config, now: int, at: int)
    requires !Refused(r, cfg) && cfg.respectOrigin && r.expires == ExpiresTime(at)
    requires "s-maxage" !in Parse(r.cacheControl).values && "max-age" !in Parse(r.cacheControl).values
    requires var d := at - (if r.date.Some? then r.date.value else now); d - InitialAge(r, now) >= MIN && d <= MAX
    ensures KeptFor(ResponsePolicy(r, cfg, now), now, at - (if r.date.Some? then r.date.value else now),
                    InitialAge(r, now), StaleWindow(r, cfg))
  {
    KeptForLifetime(r, cfg, now, at - (if r.date.Some? then r.date.value else now));
  }

  /** A malformed `Expires` refuses, and with nothing said, or the origin not respected, the configured lifetime holds. */
  lemma {:induction false} DefaultDecides(r: Response, cfg: Config, now: int)
    requires !Refused(r, cfg) && 0 <= cfg.defaultTTL <= MAX
    requires cfg.respectOrigin ==>
               "s-maxage" !in Parse(r.cacheControl).values && "max-age" !in Parse(r.cacheControl).values && !r.expires.ExpiresTime?
    ensures if cfg.respectOrigin && r.expires == BadExpires then ResponsePolicy(r, cfg, now) == NotCacheable
            else KeptFor(ResponsePolicy(r, cfg, now), now, cfg.defaultTTL,
                         if cfg.respectOrigin then InitialAge(r, now) else 0, StaleWindow(r, cfg))
  {
    if !(cfg.respectOrigin && r.expires == BadExpires) {
      KeptForLifetime(r, cfg, now, cfg.defaultTTL);
    }
  }

  // ----- requests -----------------------------------------------------------

  datatype Request = Request(
    verb: string, upgrade: bool, hasRange: bool, cacheControl: seq<string>, pragmaNoCache: bool,
    hasAuthorization: bool, hasCookie: bool)

  datatype RequestConfig = RequestConfig(enabled: bool, cacheAuthorized: bool, cacheCookies: bool)

  datatype Mode = Mode(lookup: bool, store: bool)

  function RequestMode(q: Request, cfg: RequestConfig): Mode {
    var p := Parse(q.cacheControl);
    if !cfg.enabled || q.upgrade || (q.verb != "GET" && q.verb != "HEAD") || q.hasRange then Mode(false, false)
    else if p.invalid || "max-age" in p.duplicates || "no-store" in p.values then Mode(false, false)
    else if (q.hasAuthorization && !cfg.cacheAuthorized) || (q.hasCookie && !cfg.cacheCookies) then Mode(false, false)
    else
      var revalidate := "no-cache" in p.values || q.pragmaNoCache
                        || ("max-age" in p.values && DeltaSeconds(p.values["max-age"]) == Some(0));
      Mode(!revalidate, true)
  }

  function RequestAllows(q: Request, e: Entry, now: int): bool {
    var p := Parse(q.cacheControl);
    if p.invalid || "max-age" in p.duplicates then false
    else if "max-age" !in p.values then true
    else match DeltaSeconds(p.values["max-age"])
      case None => true
      case Some(seconds) =>
        var age := Saturate(now - e.storedAt);
        (if age < 0 then 0 else age) <= seconds * SECOND
  }

  /** A reason to leave the cache out of it altogether. */
  predicate Bypasses(q: Request, cfg: RequestConfig) {
    var p := Parse(q.cacheControl);
    || !cfg.enabled || q.upgrade || q.hasRange || !(q.verb == "GET" || q.verb == "HEAD")
    || p.invalid || "max-age" in p.duplicates || "no-store" in p.values
    || (q.hasAuthorization && !cfg.cacheAuthorized) || (q.hasCookie && !cfg.cacheCookies)
  }

  /** The request insists on an answer from the origin. */
  predicate AsksOrigin(q: Request) {
    var cc := Parse(q.cacheControl).values;
    "no-cache" in cc || q.pragmaNoCache || ("max-age" in cc && DeltaSeconds(cc["max-age"]) == Some(0))
  }

  lemma {:induction false} RequestModeIff(q: Request, cfg: RequestConfig)
    ensures RequestMode(q, cfg).store <==> !Bypasses(q, cfg)
    ensures RequestMode(q, cfg).lookup <==> !Bypasses(q, cfg) && !AsksOrigin(q)
  {
  }

  /** The request accepts an answer of this age. */
  predicate AcceptsAge(q: Request, age: int) {
    var cc := Parse(q.cacheControl).values;
    "max-age" in cc && DeltaSeconds(cc["max-age"]).Some? ==>
      (if Saturate(age) < 0 then 0 else Saturate(age)) <= DeltaSeconds(cc["max-age"]).value * SECOND
  }

  /** Exactly when a request is answered from the cache. */
  lemma {:induction false} HitIff(q: Request, cfg: RequestConfig, e: Entry, t: int)
    ensures Hit(q, cfg, e, t) <==>
              !Bypasses(q, cfg) && !AsksOrigin(q) && t <= e.expiresAt && t <= e.staleUntil && AcceptsAge(q, t - e.storedAt)
  {
    RequestModeIff(q, cfg);
  }

  /** Exactly when a stale copy is kept at hand: after the entry expired and inside its stale window. */
  lemma {:induction false} StaleOfferedIff(q: Request, cfg: RequestConfig, e: Entry, t: int)
    ensures StaleOffered(q, cfg, e, t) <==>
              !Bypasses(q, cfg) && !AsksOrigin(q) && e.expiresAt < t <= e.staleUntil && AcceptsAge(q, t - e.storedAt)
  {
    RequestModeIff(q, cfg);
  }

  /** From header to hit: a response with `s-maxage=n` answers exactly the accepting requests up to age n. */
  lemma {:induction false} SharedMaxAgeHitIff(
    r: Response, cfg: Config, stored: int, n: int, q: Request, qcfg: RequestConfig, t: int,
    header: seq<(string, seq<string>)>, body: string)
    requires !Refused(r, cfg) && cfg.respectOrigin && cfg.staleIfError >= 0 && "s-maxage" in Parse(r.cacheControl).values
    requires DeltaSeconds(Parse(r.cacheControl).values["s-maxage"]) == Some(n) && n * SECOND > InitialAge(r, stored)
    ensures var p := ResponsePolicy(r, cfg, stored);
            && p.Store?
            && (Hit(q, qcfg, StoredEntry(r.status, header, body, p, stored), t) <==>
                  var age := t - stored + InitialAge(r, stored);
                  !Bypasses(q, qcfg) && !AsksOrigin(q) && age <= n * SECOND && AcceptsAge(q, age))
  {
    SharedMaxAgeDecides(r, cfg, stored);
    HitIff(q, qcfg, StoredEntry(r.status, header, body, ResponsePolicy(r, cfg, stored), stored), t);
  }

  /** A request that says no-store in any spelling stays out of the cache. */
  lemma {:induction false} NoStoreInAnyCase(q: Request, cfg: RequestConfig, i: nat)
    requires i < |AllItems(q.cacheControl)| && Names(AllItems(q.cacheControl)[i], "no-store")
    ensures RequestMode(q, cfg) == Mode(false, false)
  {
    ParseFinds(q.cacheControl, "no-store");
  }

  /** Likewise a response that says private, where the origin is respected. */
  lemma {:induction false} PrivateInAnyCase(r: Response, cfg: Config, now: int, i: nat)
    requires cfg.respectOrigin && i < |AllItems(r.cacheControl)| && Names(AllItems(r.cacheControl)[i], "private")
    ensures ResponsePolicy(r, cfg, now) == NotCacheable
  {
    ParseFinds(r.cacheControl, "private");
  }

  /**
   The same two field lines keep a request out of the cache when they arrive separately
   and let it in, for lookup and for storing, when they arrive combined.
   */
  lemma {:induction false} CombiningOpensTheCache(q: Request, cfg: RequestConfig)
    requires q.verb == "GET" && !q.upgrade && !q.hasRange && !q.pragmaNoCache && !q.hasAuthorization && !q.hasCookie && cfg.enabled
    ensures RequestMode(q.(cacheControl := [OpenLine, Closer]), cfg) == Mode(false, false)
    ensures RequestMode(q.(cacheControl := [HealedLine]), cfg) == Mode(true, true)
  {
    HealedLineParses();
  }

  /** Likewise for a response whose origin directives are respected. */
  lemma {:induction false} CombiningAdmitsResponse(r: Response, cfg: Config)
    requires cfg.respectOrigin && r.status in cfg.statusCodes && !r.setsCookie && r.varySupported && !r.pragmaNoCache
    ensures !Admitted(r.(cacheControl := [OpenLine, Closer]), cfg) && Admitted(r.(cacheControl := [HealedLine]), cfg)
  {
    HealedLineParses();
  }

  /** A request is answered from the cache. */
  predicate Hit(q: Request, cfg: RequestConfig, e: Entry, now: int) {
    RequestMode(q, cfg).lookup && Classify(e, now) == Fresh(e) && RequestAllows(q, e, now)
  }

  /** A stale copy is kept at hand in case the origin fails. */
  predicate StaleOffered(q: Request, cfg: RequestConfig, e: Entry, now: int) {
    RequestMode(q, cfg).lookup && Classify(e, now) == LruCache.Stale(e) && RequestAllows(q, e, now)
  }

  /** End to end: a hit is never older than the response's lifetime nor than the request's own limit. */
  lemma {:induction false} HitIsFresh(
    r: Response, cfg: Config, stored: int, q: Request, qcfg: RequestConfig, t: int,
    header: seq<(string, seq<string>)>, body: string)
    requires ResponsePolicy(r, cfg, stored).Store? && MIN <= cfg.defaultTTL <= MAX
    requires !LifetimeUnderflows(r, cfg, stored)
    requires Hit(q, qcfg, StoredEntry(r.status, header, body, ResponsePolicy(r, cfg, stored), stored), t)
    ensures var age := t - (stored - AgeAt(r, cfg, stored));
            var cc := Parse(q.cacheControl);
            && age <= Lifetime(r, cfg, stored).value
            && !cc.invalid && "no-store" !in cc.values && "no-cache" !in cc.values
            && ("max-age" in cc.values && DeltaSeconds(cc.values["max-age"]).Some? ==>
                  age <= DeltaSeconds(cc.values["max-age"]).value * SECOND)
  {
    ExpiryWithinLifetimeIff(r, cfg, stored);
  }

  /** A stale copy is offered only inside the stale-if-error window and never after a respected must-revalidate. */
  lemma {:induction false} StaleIsBounded(
    r: Response, cfg: Config, stored: int, q: Request, qcfg: RequestConfig, t: int,
    header: seq<(string, seq<string>)>, body: string)
    requires ResponsePolicy(r, cfg, stored).Store? && MIN <= cfg.defaultTTL <= MAX && cfg.staleIfError >= 0
    requires !LifetimeUnderflows(r, cfg, stored)
    requires StaleOffered(q, qcfg, StoredEntry(r.status, header, body, ResponsePolicy(r, cfg, stored), stored), t)
    ensures t - (stored - AgeAt(r, cfg, stored)) <= Lifetime(r, cfg, stored).value + cfg.staleIfError
    ensures !MustRevalidate(r, cfg)
  {
    ExpiryWithinLifetimeIff(r, cfg, stored);
  }
}
