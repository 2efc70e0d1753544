/**
 Two-level token buckets: a route-wide bucket is charged first and refunded when
 the client's own bucket rejects; idle buckets are swept. Times are seconds and
 tokens are reals.
 */
module RateLimit {

  datatype Bucket = Bucket(tokens: real, last: real, seen: real)

  type Buckets = map<string, Bucket>

  datatype Settings = Settings(
    globalRate: real, globalBurst: nat, rate: real, burst: nat, maxBuckets: nat, idleTTL: real)

  const SECOND := 1_000_000_000
  const MAX_DURATION := 0x7fff_ffff_ffff_ffff
  const MIN_RETRY := 1_000_000

  datatype Verdict = Admitted | Exceeded(missing: real) | NoCapacity

  datatype Decision = Allowed | RejectedGlobal(why: Verdict) | RejectedClient(why: Verdict)

  datatype Request = Request(route: string, client: string, at: real)

  function GlobalKey(route: string): string {
    "global|" + route
  }

  function ClientKey(route: string, client: string): string {
    "client|" + route + "|" + client
  }

  function Min(a: real, b: real): real {
    if a < b then a else b
  }

  /** Tokens earned over a span of time. */
  function Gain(rate: real, span: real): real {
    rate * span
  }

  function Elapsed(b: Bucket, now: real): real {
    if now < b.last then 0.0 else now - b.last
  }

  function Refilled(b: Bucket, rate: real, burst: nat, now: real): real {
    Min(burst as real, b.tokens + Gain(rate, Elapsed(b, now)))
  }

  /** The time until `missing` tokens are earned, in nanoseconds before rounding. */
  function Wait(missing: real, rate: real): real
    requires rate > 0.0
  {
    missing / rate * SECOND as real
  }

  /** The wait cut to whole nanoseconds, at least a millisecond and at most the largest duration. */
  function RetryAfter(missing: real, rate: real): int {
    if rate == 0.0 then MAX_DURATION
    else if rate < 0.0 then MIN_RETRY
    else
      var wait := Wait(missing, rate);
      if wait >= MAX_DURATION as real then MAX_DURATION
      else if wait.Floor < MIN_RETRY then MIN_RETRY else wait.Floor
  }

  /** How long a verdict says to wait, in nanoseconds. */
  function RetryOf(v: Verdict, rate: real): int {
    match v
    case Admitted => 0
    case NoCapacity => SECOND
    case Exceeded(missing) => RetryAfter(missing, rate)
  }

  function DecisionRetry(d: Decision, s: Settings): int {
    match d
    case Allowed => 0
    case RejectedGlobal(v) => RetryOf(v, s.globalRate)
    case RejectedClient(v) => RetryOf(v, s.rate)
  }

  /** The `Retry-After` header: the nearest whole second, at least one; a sum beyond the largest duration is cut to it. */
  function HeaderSeconds(retry: int): int {
    var r := retry % SECOND;
    var rounded := if r < SECOND / 2 then retry - r else if retry - r + SECOND > MAX_DURATION then MAX_DURATION else retry - r + SECOND;
    if rounded / SECOND < 1 then 1 else rounded / SECOND
  }

  /** Charge one bucket, creating a full one on first use while there is room. */
  function Charge(bs: Buckets, key: string, rate: real, burst: nat, maxBuckets: nat, now: real): (Buckets, Verdict) {
    if key !in bs && |bs| >= maxBuckets then (bs, NoCapacity)
    else
      var level := Level(bs, key, rate, burst, now);
      if level >= 1.0 then (bs[key := Bucket(level - 1.0, now, now)], Admitted)
      else (bs[key := Bucket(level, now, now)], Exceeded(1.0 - level))
  }

  function Refund(bs: Buckets, key: string, burst: nat): Buckets {
    if key in bs && bs[key].tokens < burst as real
    then bs[key := bs[key].(tokens := bs[key].tokens + 1.0)] else bs
  }

  function Decide(bs: Buckets, s: Settings, r: Request): (Buckets, Decision) {
    var g, c := GlobalKey(r.route), ClientKey(r.route, r.client);
    var (bs1, v1) := Charge(bs, g, s.globalRate, s.globalBurst, s.maxBuckets, r.at);
    if v1 != Admitted then (bs1, RejectedGlobal(v1))
    else
      var (bs2, v2) := Charge(bs1, c, s.rate, s.burst, s.maxBuckets, r.at);
      if v2 != Admitted then (Refund(bs2, g, s.globalBurst), RejectedClient(v2))
      else (bs2, Allowed)
  }

  function Sweep(bs: Buckets, idleTTL: real, now: real): Buckets {
    map k | k in bs && now - bs[k].seen <= idleTTL :: bs[k]
  }

  /** What a bucket would hold at a moment; an unused key stands for a full bucket. */
  function Level(bs: Buckets, key: string, rate: real, burst: nat, now: real): real {
    if key in bs then Refilled(bs[key], rate, burst, now) else burst as real
  }

  class Limiter {
    var buckets: Buckets

    constructor ()
      ensures buckets == map[]
    {
      buckets := map[];
    }

    method AllowLocked(key: string, rate: real, burst: nat, maxBuckets: nat, now: real) returns (v: Verdict, retry: int)
      modifies this
      ensures (buckets, v) == Charge(old(buckets), key, rate, burst, maxBuckets, now)
      ensures retry == RetryOf(v, rate)
    {
      var b: Bucket;
      if key in buckets {
        b := buckets[key];
      } else {
        if |buckets| >= maxBuckets {
          return NoCapacity, SECOND;
        }
        b := Bucket(burst as real, now, now);
        buckets := buckets[key := b];
      }
      var elapsed := now - b.last;
      if elapsed < 0.0 {
        elapsed := 0.0;
      }
      b := b.(tokens := b.tokens + Gain(rate, elapsed));
      if b.tokens > burst as real {
        b := b.(tokens := burst as real);
      }
      b := b.(last := now, seen := now);
      if b.tokens >= 1.0 {
        b := b.(tokens := b.tokens - 1.0);
        v, retry := Admitted, 0;
      } else {
        v := Exceeded(1.0 - b.tokens);
        retry := RetryAfter(1.0 - b.tokens, rate);
      }
      buckets := buckets[key := b];
      assert Gain(rate, 0.0) == 0.0;
      assert buckets == old(buckets)[key := b];
    }

    /** Route bucket first, then the client's; a client rejection hands the route token back. */
    method Allow(enabled: bool, s: Settings, r: Request) returns (d: Decision, retry: int)
      modifies this
      ensures if enabled then (buckets, d) == Decide(old(buckets), s, r) else d == Allowed && buckets == old(buckets)
      ensures retry == DecisionRetry(d, s)
    {
      if !enabled {
        return Allowed, 0;
      }
      var g := GlobalKey(r.route);
      var v, wait := AllowLocked(g, s.globalRate, s.globalBurst, s.maxBuckets, r.at);
      if v != Admitted {
        return RejectedGlobal(v), wait;
      }
      v, wait := AllowLocked(ClientKey(r.route, r.client), s.rate, s.burst, s.maxBuckets, r.at);
      if v != Admitted {
        if g in buckets && buckets[g].tokens < s.globalBurst as real {
          buckets := buckets[g := buckets[g].(tokens := buckets[g].tokens + 1.0)];
        }
        return RejectedClient(v), wait;
      }
      return Allowed, 0;
    }

    /** One tick of the cleaner, visiting the buckets in any order. */
    method Cleanup(idleTTL: real, now: real)
      modifies this
      ensures buckets == Sweep(old(buckets), idleTTL, now)
    {
      var todo := buckets.Keys;
      while todo != {}
        invariant todo <= old(buckets).Keys
        invariant buckets == map k | k in old(buckets) && (k in todo || now - old(buckets)[k].seen <= idleTTL) :: old(buckets)[k]
        decreases todo
      {
        var key :| key in todo;
        todo := todo - {key};
        if now - buckets[key].seen > idleTTL {
          buckets := buckets - {key};
        }
      }
    }
  }

  // ----- levels -------------------------------------------------------------

  /** Settings the configuration accepts. */
  predicate ValidSettings(s: Settings) {
    s.globalRate >= 0.0 && s.rate >= 0.0 && s.idleTTL >= 0.0
  }

  function RateOf(s: Settings, global: bool): real {
    if global then s.globalRate else s.rate
  }

  function BurstOf(s: Settings, global: bool): nat {
    if global then s.globalBurst else s.burst
  }

  /** Nothing in the table comes from the future and no bucket is overdrawn. */
  ghost predicate Settled(bs: Buckets, now: real) {
    forall k :: k in bs ==> bs[k].tokens >= 0.0 && bs[k].last <= now && bs[k].seen == bs[k].last
  }

  lemma {:induction false} GainAdds(rate: real, x: real, y: real)
    requires rate >= 0.0 && x >= 0.0 && y >= 0.0
    ensures Gain(rate, x) + Gain(rate, y) == Gain(rate, x + y)
    ensures Gain(rate, x) >= 0.0
    ensures Gain(rate, 0.0) == 0.0
  {
  }

  /** Levels stay between zero and the burst. */
  lemma {:induction false} LevelBounded(bs: Buckets, key: string, rate: real, burst: nat, now: real)
    requires Settled(bs, now) && rate >= 0.0
    ensures 0.0 <= Level(bs, key, rate, burst, now) <= burst as real
  {
    if key in bs {
      GainAdds(rate, Elapsed(bs[key], now), 0.0);
    }
  }

  /** Over time a level grows by at most the rate. */
  lemma {:induction false} LevelGrows(bs: Buckets, key: string, rate: real, burst: nat, now: real, later: real)
    requires Settled(bs, now) && rate >= 0.0 && now <= later
    ensures Level(bs, key, rate, burst, later) <= Level(bs, key, rate, burst, now) + Gain(rate, later - now)
  {
    GainAdds(rate, later - now, 0.0);
    if key in bs {
      GainAdds(rate, now - bs[key].last, later - now);
    }
  }

  /** Charging moves the charged bucket's level by exactly the admitted token and no other level at all. */
  lemma {:induction false} ChargeLevel(bs: Buckets, key: string, rate: real, burst: nat, maxBuckets: nat, now: real,
                                       k: string, rk: real, bk: nat)
    requires Settled(bs, now) && rate >= 0.0 && (k == key ==> rk == rate && bk == burst)
    ensures var (after, v) := Charge(bs, key, rate, burst, maxBuckets, now);
            && Settled(after, now)
            && Level(after, k, rk, bk, now)
               == Level(bs, k, rk, bk, now) - (if k == key && v == Admitted then 1.0 else 0.0)
  {
    LevelBounded(bs, key, rate, burst, now);
    GainAdds(rate, 0.0, 0.0);
  }

  lemma {:induction false} RefundLevel(bs: Buckets, key: string, rate: real, burst: nat, now: real, k: string, rk: real, bk: nat)
    requires Settled(bs, now) && rate >= 0.0 && (k == key ==> rk == rate && bk == burst)
    requires key in bs && bs[key].last == now && bs[key].tokens <= burst as real - 1.0
    ensures Settled(Refund(bs, key, burst), now)
    ensures Level(Refund(bs, key, burst), k, rk, bk, now)
            == Level(bs, k, rk, bk, now) + (if k == key then 1.0 else 0.0)
  {
    GainAdds(rate, 0.0, 0.0);
  }

  lemma {:induction false} KeysApart(route: string, client: string, other: string)
    ensures GlobalKey(other) != ClientKey(route, client)
  {
    assert GlobalKey(other)[0] == 'g' && ClientKey(route, client)[0] == 'c';
  }

  /** A whole decision: only an allowed request costs, and it costs one token in its two buckets. */
  lemma {:induction false} DecideLevel(bs: Buckets, s: Settings, r: Request, route: string, client: string, global: bool)
    requires Settled(bs, r.at) && ValidSettings(s)
    ensures var (after, d) := Decide(bs, s, r);
            var k := if global then GlobalKey(route) else ClientKey(route, client);
            var mine := if global then GlobalKey(r.route) else ClientKey(r.route, r.client);
            && Settled(after, r.at)
            && Level(after, k, RateOf(s, global), BurstOf(s, global), r.at)
               == Level(bs, k, RateOf(s, global), BurstOf(s, global), r.at)
                  - (if d == Allowed && k == mine then 1.0 else 0.0)
  {
    var k := if global then GlobalKey(route) else ClientKey(route, client);
    var g, c := GlobalKey(r.route), ClientKey(r.route, r.client);
    var rk, bk := RateOf(s, global), BurstOf(s, global);
    KeysApart(r.route, r.client, r.route);
    KeysApart(r.route, r.client, route);
    KeysApart(route, client, r.route);
    LevelBounded(bs, g, s.globalRate, s.globalBurst, r.at);
    ChargeLevel(bs, g, s.globalRate, s.globalBurst, s.maxBuckets, r.at, k, rk, bk);
    var (bs1, v1) := Charge(bs, g, s.globalRate, s.globalBurst, s.maxBuckets, r.at);
    if v1 == Admitted {
      ChargeLevel(bs1, c, s.rate, s.burst, s.maxBuckets, r.at, k, rk, bk);
      var (bs2, v2) := Charge(bs1, c, s.rate, s.burst, s.maxBuckets, r.at);
      if v2 != Admitted {
        assert bs2[g] == bs1[g];
        RefundLevel(bs2, g, s.globalRate, s.globalBurst, r.at, k, rk, bk);
      }
    }
  }

  // ----- who is let in ------------------------------------------------------

  lemma {:induction false} BarInside(x: string, y: string, x': string, y': string)
    requires |x| < |x'| && x + ("|" + y) == x' + ("|" + y')
    ensures '|' in y
  {
    var s := x + ("|" + y);
    assert s[|x'|] == '|' && s[|x'|] == y[|x'| - |x| - 1];
  }

  lemma {:induction false} BarSplits(x: string, y: string, x': string, y': string)
    requires |x| == |x'| && x + ("|" + y) == x' + ("|" + y')
    ensures x == x' && y == y'
  {
    var s := x + ("|" + y);
    assert s[..|x|] == x && s[..|x|] == x';
    assert s[|x| + 1..] == y && s[|x| + 1..] == y';
  }

  lemma {:induction false} ClientKeyRest(route: string, client: string)
    ensures ClientKey(route, client)[7..] == route + ("|" + client)
  {
    assert ClientKey(route, client) == "client|" + (route + ("|" + client));
  }

  /** Routes have their own global bucket, and clients whose names hold no bar their own bucket on each route. */
  lemma {:induction false} KeysIff(route: string, client: string, route': string, client': string)
    ensures GlobalKey(route) == GlobalKey(route') <==> route == route'
    ensures '|' !in client && '|' !in client' ==>
              (ClientKey(route, client) == ClientKey(route', client') <==> route == route' && client == client')
  {
    assert GlobalKey(route)[7..] == route && GlobalKey(route')[7..] == route';
    if ClientKey(route, client) == ClientKey(route', client') && '|' !in client && '|' !in client' {
      ClientKeyRest(route, client);
      ClientKeyRest(route', client');
      if |route| < |route'| {
        BarInside(route, client, route', client');
      } else if |route'| < |route| {
        BarInside(route', client', route, client);
      } else {
        BarSplits(route, client, route', client');
      }
    }
  }

  /** A request is let in exactly when there is a token for it in both its buckets and room for the buckets. */
  lemma {:induction false} AllowedIff(bs: Buckets, s: Settings, r: Request)
    requires Settled(bs, r.at) && ValidSettings(s)
    ensures var g, c := GlobalKey(r.route), ClientKey(r.route, r.client);
            Decide(bs, s, r).1 == Allowed <==>
              && (g in bs || |bs| < s.maxBuckets) && Level(bs, g, s.globalRate, s.globalBurst, r.at) >= 1.0
              && (c in bs || |bs| + (if g in bs then 0 else 1) < s.maxBuckets) && Level(bs, c, s.rate, s.burst, r.at) >= 1.0
  {
    var g, c := GlobalKey(r.route), ClientKey(r.route, r.client);
    KeysApart(r.route, r.client, r.route);
    var bs1 := Charge(bs, g, s.globalRate, s.globalBurst, s.maxBuckets, r.at).0;
    PutSize(bs, g, Bucket(Level(bs, g, s.globalRate, s.globalBurst, r.at) - 1.0, r.at, r.at));
    assert c in bs1 <==> c in bs;
  }

  lemma {:induction false} PutSize(bs: Buckets, k: string, b: Bucket)
    ensures |bs[k := b]| == |bs| + (if k in bs then 0 else 1)
  {
    assert bs[k := b].Keys == bs.Keys + {k};
    assert k in bs ==> bs.Keys + {k} == bs.Keys;
  }

  /** A sweep removes the buckets idle for longer than allowed, and only those. */
  lemma {:induction false} SweepRemovesIdle(bs: Buckets, idleTTL: real, now: real, k: string)
    ensures k in Sweep(bs, idleTTL, now) <==> k in bs && !(now - bs[k].seen > idleTTL)
    ensures k in Sweep(bs, idleTTL, now) ==> Sweep(bs, idleTTL, now)[k] == bs[k]
  {
  }

  // ----- waiting ------------------------------------------------------------

  /** The verdict on a second request after a rejection and a wait of so many nanoseconds. */
  function Retried(bs: Buckets, key: string, rate: real, burst: nat, maxBuckets: nat, now: real, nanos: int): Verdict {
    var after := Charge(bs, key, rate, burst, maxBuckets, now).0;
    Charge(after, key, rate, burst, maxBuckets, now + nanos as real / SECOND as real).1
  }

  predicate Rejected(bs: Buckets, key: string, rate: real, burst: nat, maxBuckets: nat, now: real) {
    Charge(bs, key, rate, burst, maxBuckets, now).1.Exceeded?
  }

  /** What the rejection says. */
  function Said(bs: Buckets, key: string, rate: real, burst: nat, maxBuckets: nat, now: real): int {
    RetryOf(Charge(bs, key, rate, burst, maxBuckets, now).1, rate)
  }

  lemma {:induction false} EarnedInTime(missing: real, rate: real, nanos: int)
    requires rate > 0.0
    ensures Gain(rate, nanos as real / SECOND as real) >= missing <==> nanos as real >= Wait(missing, rate)
  {
    var exact, span := missing / rate, nanos as real / SECOND as real;
    assert rate * exact == missing;
    assert span >= exact <==> nanos as real >= exact * SECOND as real;
    if span >= exact {
      assert rate * (span - exact) >= 0.0;
    } else {
      assert rate * (exact - span) > 0.0;
    }
  }

  /** A wait is enough exactly when it is as long as the missing part takes to be earned. */
  lemma {:induction false} WaitSufficesIff(bs: Buckets, key: string, rate: real, burst: nat, maxBuckets: nat, now: real, nanos: int)
    requires Settled(bs, now) && rate > 0.0 && nanos >= 0 && Rejected(bs, key, rate, burst, maxBuckets, now)
    ensures Retried(bs, key, rate, burst, maxBuckets, now, nanos) == Admitted
            <==> burst >= 1 && nanos as real >= Wait(1.0 - Level(bs, key, rate, burst, now), rate)
  {
    var level, span := Level(bs, key, rate, burst, now), nanos as real / SECOND as real;
    var after := Charge(bs, key, rate, burst, maxBuckets, now).0;
    assert span >= 0.0;
    assert Level(after, key, rate, burst, now + span) == Min(burst as real, level + Gain(rate, span));
    EarnedInTime(1.0 - level, rate, nanos);
  }

  /**
   Waiting as long as the rejection says is enough exactly when the wait needed is a
   whole number of nanoseconds within range, or shorter than the millisecond floor.
   */
  lemma {:induction false} RetryAfterSufficesIff(bs: Buckets, key: string, rate: real, burst: nat, maxBuckets: nat, now: real)
    requires Settled(bs, now) && rate > 0.0 && burst >= 1 && Rejected(bs, key, rate, burst, maxBuckets, now)
    ensures var wait := Wait(1.0 - Level(bs, key, rate, burst, now), rate);
            Retried(bs, key, rate, burst, maxBuckets, now, Said(bs, key, rate, burst, maxBuckets, now)) == Admitted
            <==> wait <= MIN_RETRY as real || (wait == wait.Floor as real && wait <= MAX_DURATION as real)
  {
    WaitSufficesIff(bs, key, rate, burst, maxBuckets, now, Said(bs, key, rate, burst, maxBuckets, now));
  }

  /** One nanosecond more is always enough, unless the wait was cut at the largest duration. */
  lemma {:induction false} OneMoreNanosecondSuffices(bs: Buckets, key: string, rate: real, burst: nat, maxBuckets: nat, now: real)
    requires Settled(bs, now) && rate > 0.0 && burst >= 1 && Rejected(bs, key, rate, burst, maxBuckets, now)
    requires Said(bs, key, rate, burst, maxBuckets, now) < MAX_DURATION
    ensures Retried(bs, key, rate, burst, maxBuckets, now, Said(bs, key, rate, burst, maxBuckets, now) + 1) == Admitted
  {
    WaitSufficesIff(bs, key, rate, burst, maxBuckets, now, Said(bs, key, rate, burst, maxBuckets, now) + 1);
  }

  /** At three tokens a second an empty bucket says a third of a second, cut short by a third of a nanosecond. */
  lemma {:induction false} ThirdOfASecondIsTooShort()
    ensures var bs := map["k" := Bucket(0.0, 0.0, 0.0)];
            && Rejected(bs, "k", 3.0, 1, 1, 0.0) && Said(bs, "k", 3.0, 1, 1, 0.0) == 333_333_333
            && Retried(bs, "k", 3.0, 1, 1, 0.0, 333_333_333) != Admitted
  {
    var bs := map["k" := Bucket(0.0, 0.0, 0.0)];
    EmptyBucket(bs, 3.0, 1);
    ThirdOfASecond();
    WaitSufficesIff(bs, "k", 3.0, 1, 1, 0.0, 333_333_333);
  }

  lemma {:induction false} ThirdOfASecond()
    ensures Wait(1.0, 3.0) > 333_333_333 as real && RetryAfter(1.0, 3.0) == 333_333_333
  {
    var wait := Wait(1.0, 3.0);
    assert 333_333_333.0 < wait < 333_333_334.0;
    assert wait.Floor == 333_333_333;
  }

  lemma {:induction false} EmptyBucket(bs: Buckets, rate: real, burst: nat)
    requires bs == map["k" := Bucket(0.0, 0.0, 0.0)] && burst >= 1
    ensures Level(bs, "k", rate, burst, 0.0) == 0.0 && Settled(bs, 0.0)
    ensures Charge(bs, "k", rate, burst, 1, 0.0).1 == Exceeded(1.0)
  {
  }

  /**
   Waiting as long as the header says is enough exactly when the wait is at most one
   second, is rounded up, or is a whole number of seconds.
   */
  lemma {:induction false} HeaderSufficesIff(bs: Buckets, key: string, rate: real, burst: nat, maxBuckets: nat, now: real)
    requires Settled(bs, now) && rate > 0.0 && burst >= 1 && Rejected(bs, key, rate, burst, maxBuckets, now)
    ensures var wait := Wait(1.0 - Level(bs, key, rate, burst, now), rate);
            var retry := Said(bs, key, rate, burst, maxBuckets, now);
            Retried(bs, key, rate, burst, maxBuckets, now, HeaderSeconds(retry) * SECOND) == Admitted
            <==> || wait <= SECOND as real
                 || (retry % SECOND >= SECOND / 2 && retry < MAX_DURATION / SECOND * SECOND)
                 || (retry % SECOND == 0 && wait == retry as real)
  {
    var retry := Said(bs, key, rate, burst, maxBuckets, now);
    var wait := Wait(1.0 - Level(bs, key, rate, burst, now), rate);
    WaitSufficesIff(bs, key, rate, burst, maxBuckets, now, HeaderSeconds(retry) * SECOND);
    HeaderReaches(wait, retry);
  }

  /** A wait of 1.4 seconds is advertised as one. */
  lemma {:induction false} HeaderRoundsDown()
    ensures var bs := map["k" := Bucket(0.3, 0.0, 0.0)];
            && Rejected(bs, "k", 0.5, 1, 1, 0.0) && Said(bs, "k", 0.5, 1, 1, 0.0) == 1_400_000_000 && HeaderSeconds(1_400_000_000) == 1
            && Retried(bs, "k", 0.5, 1, 1, 0.0, SECOND) != Admitted
  {
    var bs := map["k" := Bucket(0.3, 0.0, 0.0)];
    LowBucket(bs);
    LongWait();
    WaitSufficesIff(bs, "k", 0.5, 1, 1, 0.0, SECOND);
  }

  lemma {:induction false} LowBucket(bs: Buckets)
    requires bs == map["k" := Bucket(0.3, 0.0, 0.0)]
    ensures Level(bs, "k", 0.5, 1, 0.0) == 0.3 && Settled(bs, 0.0) && Charge(bs, "k", 0.5, 1, 1, 0.0).1 == Exceeded(0.7)
  {
  }

  lemma {:induction false} LongWait()
    ensures Wait(0.7, 0.5) == 1_400_000_000 as real && RetryAfter(0.7, 0.5) == 1_400_000_000
    ensures HeaderSeconds(1_400_000_000) == 1
  {
  }

  lemma {:induction false} HeaderReaches(wait: real, retry: int)
    requires wait > 0.0
    requires retry == if wait >= MAX_DURATION as real then MAX_DURATION else if wait.Floor < MIN_RETRY then MIN_RETRY else wait.Floor
    ensures (HeaderSeconds(retry) * SECOND) as real >= wait
            <==> || wait <= SECOND as real
                 || (retry % SECOND >= SECOND / 2 && retry < MAX_DURATION / SECOND * SECOND)
                 || (retry % SECOND == 0 && wait == retry as real)
  {
  }

  // ----- repeating the whole request ----------------------------------------

  /** The same request so many nanoseconds later. */
  function Later(r: Request, nanos: int): Request {
    r.(at := r.at + nanos as real / SECOND as real)
  }

  /** A level only rises with time. */
  lemma {:induction false} LevelRises(bs: Buckets, key: string, rate: real, burst: nat, now: real, later: real)
    requires Settled(bs, now) && rate >= 0.0 && now <= later
    ensures Level(bs, key, rate, burst, now) <= Level(bs, key, rate, burst, later)
  {
    if key in bs {
      GainAdds(rate, now - bs[key].last, later - now);
    }
  }

  lemma {:induction false} Settles(bs: Buckets, now: real, later: real)
    requires Settled(bs, now) && now <= later
    ensures Settled(bs, later)
  {
  }

  /** The table after a rejection by the client's bucket: both buckets exist, the route has its token back. */
  lemma {:induction false} ClientRejection(bs: Buckets, s: Settings, r: Request, missing: real)
    requires Settled(bs, r.at) && ValidSettings(s) && Decide(bs, s, r).1 == RejectedClient(Exceeded(missing))
    ensures var after := Decide(bs, s, r).0; var g, c := GlobalKey(r.route), ClientKey(r.route, r.client);
            && Settled(after, r.at) && g in after && c in after && after[c] == Bucket(1.0 - missing, r.at, r.at)
            && Level(after, g, s.globalRate, s.globalBurst, r.at) >= 1.0
  {
    var g, c := GlobalKey(r.route), ClientKey(r.route, r.client);
    KeysApart(r.route, r.client, r.route);
    DecideLevel(bs, s, r, r.route, r.client, true);
    LevelBounded(bs, g, s.globalRate, s.globalBurst, r.at);
  }

  lemma {:induction false} LevelOfFresh(tokens: real, rate: real, burst: nat, at: real, nanos: int)
    requires nanos >= 0
    ensures Refilled(Bucket(tokens, at, at), rate, burst, at + nanos as real / SECOND as real)
         == Min(burst as real, tokens + Gain(rate, nanos as real / SECOND as real))
  {
    assert nanos as real / SECOND as real >= 0.0;
  }

  /**
   After a rejection by the client's bucket, the whole request repeated is let in exactly
   when the time waited earns what was missing.
   */
  lemma {:induction false} RepeatAfterClientIff(bs: Buckets, s: Settings, r: Request, missing: real, nanos: int)
    requires Settled(bs, r.at) && ValidSettings(s) && s.rate > 0.0 && s.burst >= 1 && nanos >= 0
    requires Decide(bs, s, r).1 == RejectedClient(Exceeded(missing))
    ensures Decide(Decide(bs, s, r).0, s, Later(r, nanos)).1 == Allowed <==> nanos as real >= Wait(missing, s.rate)
  {
    var after, later := Decide(bs, s, r).0, Later(r, nanos);
    var g, c := GlobalKey(r.route), ClientKey(r.route, r.client);
    ClientRejection(bs, s, r, missing);
    assert nanos as real / SECOND as real >= 0.0;
    LevelRises(after, g, s.globalRate, s.globalBurst, r.at, later.at);
    Settles(after, r.at, later.at);
    LevelOfFresh(1.0 - missing, s.rate, s.burst, r.at, nanos);
    EarnedInTime(missing, s.rate, nanos);
    AllowedIff(after, s, later);
  }

  /** So the time a decision names is enough under the same condition as for one bucket. */
  lemma {:induction false} DecisionRetrySufficesIff(bs: Buckets, s: Settings, r: Request, missing: real)
    requires Settled(bs, r.at) && ValidSettings(s) && s.rate > 0.0 && s.burst >= 1 && missing > 0.0
    requires Decide(bs, s, r).1 == RejectedClient(Exceeded(missing))
    ensures var wait := Wait(missing, s.rate);
            Decide(Decide(bs, s, r).0, s, Later(r, DecisionRetry(Decide(bs, s, r).1, s))).1 == Allowed
            <==> wait <= MIN_RETRY as real || (wait == wait.Floor as real && wait <= MAX_DURATION as real)
  {
    RepeatAfterClientIff(bs, s, r, missing, DecisionRetry(Decide(bs, s, r).1, s));
  }

  /** After a rejection by the route's bucket, the route lets the request through again exactly when the time waited earns what was missing. */
  lemma {:induction false} RepeatAfterRouteIff(bs: Buckets, s: Settings, r: Request, missing: real, nanos: int)
    requires Settled(bs, r.at) && ValidSettings(s) && s.globalRate > 0.0 && s.globalBurst >= 1 && nanos >= 0
    requires Decide(bs, s, r).1 == RejectedGlobal(Exceeded(missing))
    ensures !Decide(Decide(bs, s, r).0, s, Later(r, nanos)).1.RejectedGlobal? <==> nanos as real >= Wait(missing, s.globalRate)
  {
    var g := GlobalKey(r.route);
    assert Decide(bs, s, r).0[g] == Bucket(1.0 - missing, r.at, r.at);
    LevelOfFresh(1.0 - missing, s.globalRate, s.globalBurst, r.at, nanos);
    EarnedInTime(missing, s.globalRate, nanos);
  }

  // ----- runs ---------------------------------------------------------------

  ghost predicate Ordered(rs: seq<Request>) {
    forall i, j :: 0 <= i <= j < |rs| ==> rs[i].at <= rs[j].at
  }

  /** `run[i]` is the table before request `i`. */
  ghost predicate IsRun(run: seq<Buckets>, s: Settings, rs: seq<Request>) {
    && |run| == |rs| + 1
    && run[0] == map[]
    && forall i :: 0 <= i < |rs| ==> Follows(run, s, rs, i)
  }

  predicate Follows(run: seq<Buckets>, s: Settings, rs: seq<Request>, i: int)
    requires |run| == |rs| + 1
  {
    0 <= i < |rs| && run[i + 1] == Decide(run[i], s, rs[i]).0
  }

  predicate Counts(bs: Buckets, s: Settings, r: Request, key: string, global: bool) {
    Decide(bs, s, r).1 == Allowed && key == if global then GlobalKey(r.route) else ClientKey(r.route, r.client)
  }

  /** Requests from `i` up to `j` that were allowed and charged the bucket `key`. */
  function Admissions(run: seq<Buckets>, s: Settings, rs: seq<Request>, key: string, global: bool, i: nat, j: nat): nat
    requires i <= j <= |rs| && |run| == |rs| + 1
  {
    if i == j then 0
    else Admissions(run, s, rs, key, global, i, j - 1) + (if Counts(run[j - 1], s, rs[j - 1], key, global) then 1 else 0)
  }

  lemma {:induction false} RunSettled(run: seq<Buckets>, s: Settings, rs: seq<Request>, i: nat)
    requires IsRun(run, s, rs) && Ordered(rs) && ValidSettings(s) && i <= |rs|
    ensures i < |rs| ==> Settled(run[i], rs[i].at)
    ensures i > 0 ==> Settled(run[i], rs[i - 1].at)
  {
    if i > 0 {
      RunSettled(run, s, rs, i - 1);
      DecideLevel(run[i - 1], s, rs[i - 1], rs[i - 1].route, rs[i - 1].client, true);
      assert Follows(run, s, rs, i - 1);
    }
  }

  /** The key of a route bucket or of a client bucket. */
  function KeyOf(route: string, client: string, global: bool): string {
    if global then GlobalKey(route) else ClientKey(route, client)
  }

  /** Level of a bucket in the table before request `i`, at time `at`. */
  function LevelAt(bs: Buckets, s: Settings, route: string, client: string, global: bool, at: real): real {
    Level(bs, KeyOf(route, client, global), RateOf(s, global), BurstOf(s, global), at)
  }

  /** Between two neighbouring requests a level grows by the rate and falls by the admission. */
  lemma {:induction false} LedgerStep(
    run: seq<Buckets>, s: Settings, rs: seq<Request>, route: string, client: string, global: bool, j: nat)
    requires IsRun(run, s, rs) && Ordered(rs) && ValidSettings(s) && 1 <= j < |rs|
    ensures LevelAt(run[j + 1], s, route, client, global, rs[j].at)
            + (if Counts(run[j], s, rs[j], KeyOf(route, client, global), global) then 1.0 else 0.0)
            <= LevelAt(run[j], s, route, client, global, rs[j - 1].at)
               + Gain(RateOf(s, global), rs[j].at - rs[j - 1].at)
  {
    RunSettled(run, s, rs, j);
    assert Follows(run, s, rs, j);
    DecideLevel(run[j], s, rs[j], route, client, global);
    LevelGrows(run[j], KeyOf(route, client, global), RateOf(s, global), BurstOf(s, global), rs[j - 1].at, rs[j].at);
  }

  lemma {:induction false} LedgerStart(
    run: seq<Buckets>, s: Settings, rs: seq<Request>, route: string, client: string, global: bool, i: nat)
    requires IsRun(run, s, rs) && Ordered(rs) && ValidSettings(s) && i < |rs|
    ensures LevelAt(run[i + 1], s, route, client, global, rs[i].at)
            + (if Counts(run[i], s, rs[i], KeyOf(route, client, global), global) then 1.0 else 0.0)
            <= BurstOf(s, global) as real
  {
    RunSettled(run, s, rs, i);
    assert Follows(run, s, rs, i);
    DecideLevel(run[i], s, rs[i], route, client, global);
    LevelBounded(run[i], KeyOf(route, client, global), RateOf(s, global), BurstOf(s, global), rs[i].at);
  }

  /** One bucket's part in a request: when, whether it gave a token, and its level around it. */
  datatype Entry = Entry(at: real, given: bool, before: real, after: real)

  function Given(t: seq<Entry>, i: nat, j: nat): nat
    requires i <= j <= |t|
  {
    if i == j then 0 else Given(t, i, j - 1) + (if t[j - 1].given then 1 else 0)
  }

  function Token(e: Entry): real {
    if e.given then 1.0 else 0.0
  }

  /** Entry `j` starts from no more than a full bucket, and from no more than the one before it left and time brought. */
  predicate Kept(t: seq<Entry>, rate: real, burst: real, j: int) {
    0 <= j < |t| ==>
      && t[j].after + Token(t[j]) <= burst
      && (j > 0 ==> t[j - 1].at <= t[j].at && t[j].after + Token(t[j]) <= t[j - 1].after + Gain(rate, t[j].at - t[j - 1].at))
  }

  ghost predicate KeepsBooks(t: seq<Entry>, rate: real, burst: real) {
    forall j :: 0 <= j < |t| ==> Kept(t, rate, burst, j)
  }

  /** Tokens given plus what is left never exceed a full bucket plus what time brought. */
  lemma {:induction false} Books(t: seq<Entry>, rate: real, burst: real, i: nat, j: nat)
    requires rate >= 0.0 && KeepsBooks(t, rate, burst) && i <= j < |t|
    ensures t[i].at <= t[j].at
    ensures Given(t, i, j + 1) as real + t[j].after <= burst + Gain(rate, t[j].at - t[i].at)
  {
    assert Kept(t, rate, burst, j);
    if i == j {
      assert Given(t, i, i) == 0;
      assert Gain(rate, 0.0) == 0.0;
    } else {
      Books(t, rate, burst, i, j - 1);
      GainAdds(rate, t[j - 1].at - t[i].at, t[j].at - t[j - 1].at);
    }
  }

  function EntryAt(run: seq<Buckets>, s: Settings, rs: seq<Request>, route: string, client: string, global: bool, j: nat): Entry
    requires j < |rs| && |run| == |rs| + 1
  {
    Entry(rs[j].at, Counts(run[j], s, rs[j], KeyOf(route, client, global), global),
          LevelAt(run[j], s, route, client, global, rs[j].at), LevelAt(run[j + 1], s, route, client, global, rs[j].at))
  }

  function Account(run: seq<Buckets>, s: Settings, rs: seq<Request>, route: string, client: string, global: bool): (t: seq<Entry>)
    requires |run| == |rs| + 1
    ensures |t| == |rs|
  {
    seq(|rs|, j requires 0 <= j < |rs| => EntryAt(run, s, rs, route, client, global, j))
  }

  lemma {:induction false} EntryStarts(
    run: seq<Buckets>, s: Settings, rs: seq<Request>, route: string, client: string, global: bool, j: nat)
    requires IsRun(run, s, rs) && Ordered(rs) && ValidSettings(s) && j < |rs|
    ensures var e := EntryAt(run, s, rs, route, client, global, j); e.after + Token(e) <= BurstOf(s, global) as real
  {
    LedgerStart(run, s, rs, route, client, global, j);
  }

  lemma {:induction false} EntryFollows(
    run: seq<Buckets>, s: Settings, rs: seq<Request>, route: string, client: string, global: bool, j: nat)
    requires IsRun(run, s, rs) && Ordered(rs) && ValidSettings(s) && 1 <= j < |rs|
    ensures var d, e := EntryAt(run, s, rs, route, client, global, j - 1), EntryAt(run, s, rs, route, client, global, j);
            d.at <= e.at && e.after + Token(e) <= d.after + Gain(RateOf(s, global), e.at - d.at)
  {
    LedgerStep(run, s, rs, route, client, global, j);
  }

  lemma {:induction false} AccountAt(
    run: seq<Buckets>, s: Settings, rs: seq<Request>, route: string, client: string, global: bool, j: nat)
    requires |run| == |rs| + 1 && j < |rs|
    ensures Account(run, s, rs, route, client, global)[j] == EntryAt(run, s, rs, route, client, global, j)
  {
  }

  lemma {:induction false} KeptIf(t: seq<Entry>, rate: real, burst: real, j: nat, d: Entry, e: Entry)
    requires j < |t| && t[j] == e && e.after + Token(e) <= burst
    requires j > 0 ==> t[j - 1] == d && d.at <= e.at && e.after + Token(e) <= d.after + Gain(rate, e.at - d.at)
    ensures Kept(t, rate, burst, j)
  {
  }

  lemma {:induction false} AccountKept(
    run: seq<Buckets>, s: Settings, rs: seq<Request>, route: string, client: string, global: bool, j: nat)
    requires IsRun(run, s, rs) && Ordered(rs) && ValidSettings(s) && j < |rs|
    ensures Kept(Account(run, s, rs, route, client, global), RateOf(s, global), BurstOf(s, global) as real, j)
  {
    var t, e := Account(run, s, rs, route, client, global), EntryAt(run, s, rs, route, client, global, j);
    AccountAt(run, s, rs, route, client, global, j);
    EntryStarts(run, s, rs, route, client, global, j);
    var d := e;
    if j > 0 {
      d := EntryAt(run, s, rs, route, client, global, j - 1);
      AccountAt(run, s, rs, route, client, global, j - 1);
      EntryFollows(run, s, rs, route, client, global, j);
    }
    KeptIf(t, RateOf(s, global), BurstOf(s, global) as real, j, d, e);
  }

  lemma {:induction false} AccountGives(
    run: seq<Buckets>, s: Settings, rs: seq<Request>, route: string, client: string, global: bool, j: nat)
    requires |run| == |rs| + 1 && j < |rs|
    ensures Account(run, s, rs, route, client, global)[j].given == Counts(run[j], s, rs[j], KeyOf(route, client, global), global)
  {
  }

  lemma {:induction false} AdmissionsAreGiven(
    run: seq<Buckets>, s: Settings, rs: seq<Request>, key: string, global: bool, t: seq<Entry>, i: nat, j: nat)
    requires |run| == |rs| + 1 && |t| == |rs| && i <= j <= |rs|
    requires forall k :: 0 <= k < |rs| ==> t[k].given == Counts(run[k], s, rs[k], key, global)
    ensures Admissions(run, s, rs, key, global, i, j) == Given(t, i, j)
  {
    if i < j {
      AdmissionsAreGiven(run, s, rs, key, global, t, i, j - 1);
    }
  }

  lemma {:induction false} AccountAdmits(
    run: seq<Buckets>, s: Settings, rs: seq<Request>, route: string, client: string, global: bool, i: nat, j: nat)
    requires |run| == |rs| + 1 && i <= j <= |rs|
    ensures Admissions(run, s, rs, KeyOf(route, client, global), global, i, j)
         == Given(Account(run, s, rs, route, client, global), i, j)
  {
    var t, key := Account(run, s, rs, route, client, global), KeyOf(route, client, global);
    forall k | 0 <= k < |rs| ensures t[k].given == Counts(run[k], s, rs[k], key, global) {
      AccountGives(run, s, rs, route, client, global, k);
    }
    AdmissionsAreGiven(run, s, rs, key, global, t, i, j);
  }

  lemma {:induction false} AccountKeepsBooks(
    run: seq<Buckets>, s: Settings, rs: seq<Request>, route: string, client: string, global: bool, t: seq<Entry>, rate: real, burst: real)
    requires IsRun(run, s, rs) && Ordered(rs) && ValidSettings(s) && t == Account(run, s, rs, route, client, global)
    requires rate == RateOf(s, global) && burst == BurstOf(s, global) as real
    ensures KeepsBooks(t, rate, burst)
  {
    forall k | 0 <= k < |t| ensures Kept(t, rate, burst, k) {
      AccountKept(run, s, rs, route, client, global, k);
    }
  }

  lemma {:induction false} AccountBooks(
    run: seq<Buckets>, s: Settings, rs: seq<Request>, route: string, client: string, global: bool, t: seq<Entry>, i: nat, j: nat)
    requires IsRun(run, s, rs) && Ordered(rs) && ValidSettings(s) && i <= j < |rs|
    requires t == Account(run, s, rs, route, client, global)
    ensures Given(t, i, j + 1) as real + t[j].after <= BurstOf(s, global) as real + Gain(RateOf(s, global), t[j].at - t[i].at)
  {
    AccountKeepsBooks(run, s, rs, route, client, global, t, RateOf(s, global), BurstOf(s, global) as real);
    Books(t, RateOf(s, global), BurstOf(s, global) as real, i, j);
  }

  /** Admissions plus what is left never exceed a full bucket plus what time brought. */
  lemma {:induction false} WindowLedger(
    run: seq<Buckets>, s: Settings, rs: seq<Request>, route: string, client: string, global: bool, i: nat, j: nat)
    requires IsRun(run, s, rs) && Ordered(rs) && ValidSettings(s) && i <= j < |rs|
    ensures Admissions(run, s, rs, KeyOf(route, client, global), global, i, j + 1) as real
            + LevelAt(run[j + 1], s, route, client, global, rs[j].at)
            <= BurstOf(s, global) as real + Gain(RateOf(s, global), rs[j].at - rs[i].at)
  {
    var t := Account(run, s, rs, route, client, global);
    AccountBooks(run, s, rs, route, client, global, t, i, j);
    AccountAdmits(run, s, rs, route, client, global, i, j + 1);
    assert t[i].at == rs[i].at && t[j] == EntryAt(run, s, rs, route, client, global, j);
  }

  /** Any stretch of requests admits at most the burst plus the rate times its duration, per route and per client. */
  lemma {:induction false} WindowBound(
    run: seq<Buckets>, s: Settings, rs: seq<Request>, route: string, client: string, global: bool, i: nat, j: nat)
    requires IsRun(run, s, rs) && Ordered(rs) && ValidSettings(s) && i <= j < |rs|
    ensures Admissions(run, s, rs, KeyOf(route, client, global), global, i, j + 1) as real
            <= BurstOf(s, global) as real + Gain(RateOf(s, global), rs[j].at - rs[i].at)
  {
    WindowLedger(run, s, rs, route, client, global, i, j);
    RunSettled(run, s, rs, j + 1);
    LevelBounded(run[j + 1], KeyOf(route, client, global), RateOf(s, global), BurstOf(s, global), rs[j].at);
  }

  /** A request rejected at client level leaves the route bucket exactly as full as it found it. */
  lemma {:induction false} RejectionIsFree(bs: Buckets, s: Settings, r: Request, route: string, client: string)
    requires Settled(bs, r.at) && ValidSettings(s) && Decide(bs, s, r).1 != Allowed
    ensures var after := Decide(bs, s, r).0;
            && Level(after, GlobalKey(route), s.globalRate, s.globalBurst, r.at)
               == Level(bs, GlobalKey(route), s.globalRate, s.globalBurst, r.at)
            && Level(after, ClientKey(route, client), s.rate, s.burst, r.at)
               == Level(bs, ClientKey(route, client), s.rate, s.burst, r.at)
  {
    DecideLevel(bs, s, r, route, client, true);
    DecideLevel(bs, s, r, route, client, false);
  }

  // ----- sweeping -----------------------------------------------------------

  predicate IsGlobal(key: string) {
    key != "" && key[0] == 'g'
  }

  /** An idle bucket has refilled by the time it may be swept. */
  predicate LongIdle(s: Settings) {
    Gain(s.globalRate, s.idleTTL) >= s.globalBurst as real && Gain(s.rate, s.idleTTL) >= s.burst as real
  }

  /** The bucket has earned its full burst by `now`. */
  predicate Full(b: Bucket, s: Settings, key: string, now: real) {
    b.tokens + Gain(RateOf(s, IsGlobal(key)), Elapsed(b, now)) >= BurstOf(s, IsGlobal(key)) as real
  }

  /** The swept table lacks only buckets that are full anyway. */
  ghost predicate Equivalent(swept: Buckets, kept: Buckets, s: Settings, now: real) {
    && Settled(kept, now) && |kept| <= s.maxBuckets
    && (forall k :: k in swept ==> k in kept && kept[k] == swept[k])
    && (forall k :: k in kept && k !in swept ==> Full(kept[k], s, k, now))
  }

  lemma {:induction false} FullStays(b: Bucket, s: Settings, key: string, now: real, later: real)
    requires ValidSettings(s) && b.last <= now <= later && Full(b, s, key, now)
    ensures Full(b, s, key, later)
  {
    GainAdds(RateOf(s, IsGlobal(key)), now - b.last, later - now);
    GainAdds(RateOf(s, IsGlobal(key)), later - now, 0.0);
  }

  lemma {:induction false} EquivalentLater(swept: Buckets, kept: Buckets, s: Settings, now: real, later: real)
    requires ValidSettings(s) && Equivalent(swept, kept, s, now) && now <= later
    ensures Equivalent(swept, kept, s, later)
  {
    forall k | k in kept && k !in swept ensures Full(kept[k], s, k, later) {
      FullStays(kept[k], s, k, now, later);
    }
  }

  lemma {:induction false} SweepKeepsEquivalence(swept: Buckets, kept: Buckets, s: Settings, now: real)
    requires ValidSettings(s) && LongIdle(s) && Equivalent(swept, kept, s, now)
    ensures Equivalent(Sweep(swept, s.idleTTL, now), kept, s, now)
  {
    var after := Sweep(swept, s.idleTTL, now);
    forall k | k in kept && k !in after ensures Full(kept[k], s, k, now) {
      if k in swept {
        GainAdds(RateOf(s, IsGlobal(k)), s.idleTTL, now - kept[k].last - s.idleTTL);
      }
    }
  }

  lemma {:induction false} FewerKeys(swept: Buckets, kept: Buckets)
    requires forall k :: k in swept ==> k in kept
    ensures |swept| <= |kept|
    ensures |swept| == |kept| ==> swept.Keys == kept.Keys
  {
    assert swept.Keys <= kept.Keys;
    SubsetSize(swept.Keys, kept.Keys);
  }

  lemma {:induction false} SubsetSize(a: set<string>, b: set<string>)
    requires a <= b
    ensures |a| <= |b| && (|a| == |b| ==> a == b)
  {
    assert b == a + (b - a) && |a + (b - a)| == |a| + |b - a|;
  }

  /** One bucket charged in both tables gives one verdict and keeps the tables equivalent. */
  lemma {:induction false} ChargeAgrees(swept: Buckets, kept: Buckets, s: Settings, key: string, now: real)
    requires ValidSettings(s) && Equivalent(swept, kept, s, now)
    requires var g := IsGlobal(key);
             Charge(kept, key, RateOf(s, g), BurstOf(s, g), s.maxBuckets, now).1 != NoCapacity
    ensures var g := IsGlobal(key);
            var (a, va) := Charge(swept, key, RateOf(s, g), BurstOf(s, g), s.maxBuckets, now);
            var (b, vb) := Charge(kept, key, RateOf(s, g), BurstOf(s, g), s.maxBuckets, now);
            va == vb && Equivalent(a, b, s, now) && key in a
  {
    var g := IsGlobal(key);
    var rate, burst := RateOf(s, g), BurstOf(s, g);
    SameLevel(swept, kept, s, key, now);
    ChargeLevel(kept, key, rate, burst, s.maxBuckets, now, key, rate, burst);
    var after := Charge(kept, key, rate, burst, s.maxBuckets, now).0[key];
    SameEntryAgrees(swept, kept, s, key, after, now);
  }

  lemma {:induction false} SameLevel(swept: Buckets, kept: Buckets, s: Settings, key: string, now: real)
    requires ValidSettings(s) && Equivalent(swept, kept, s, now)
    ensures var g := IsGlobal(key);
            Level(swept, key, RateOf(s, g), BurstOf(s, g), now) == Level(kept, key, RateOf(s, g), BurstOf(s, g), now)
    ensures |swept| <= |kept| && (key in kept && key !in swept ==> |swept| < |kept|)
  {
    FewerKeys(swept, kept);
    assert key in kept && key !in swept ==> swept.Keys != kept.Keys;
  }

  lemma {:induction false} SameEntryAgrees(swept: Buckets, kept: Buckets, s: Settings, key: string, b: Bucket, now: real)
    requires Equivalent(swept, kept, s, now) && Settled(kept[key := b], now) && |kept[key := b]| <= s.maxBuckets
    ensures Equivalent(swept[key := b], kept[key := b], s, now)
  {
  }

  lemma {:induction false} RefundAgrees(swept: Buckets, kept: Buckets, s: Settings, key: string, now: real)
    requires ValidSettings(s) && Equivalent(swept, kept, s, now) && key in swept
    ensures Equivalent(Refund(swept, key, s.globalBurst), Refund(kept, key, s.globalBurst), s, now)
  {
  }

  predicate LacksCapacity(d: Decision) {
    !d.Allowed? && d.why == NoCapacity
  }

  lemma {:induction false} DecideAgrees(swept: Buckets, kept: Buckets, s: Settings, r: Request)
    requires ValidSettings(s) && Equivalent(swept, kept, s, r.at)
    requires !LacksCapacity(Decide(kept, s, r).1)
    ensures Decide(swept, s, r).1 == Decide(kept, s, r).1
    ensures Equivalent(Decide(swept, s, r).0, Decide(kept, s, r).0, s, r.at)
  {
    var g, c := GlobalKey(r.route), ClientKey(r.route, r.client);
    assert IsGlobal(g) && !IsGlobal(c) && g != c;
    ChargeAgrees(swept, kept, s, g, r.at);
    var (a1, v1) := Charge(swept, g, s.globalRate, s.globalBurst, s.maxBuckets, r.at);
    var (b1, _) := Charge(kept, g, s.globalRate, s.globalBurst, s.maxBuckets, r.at);
    if v1 == Admitted {
      ChargeAgrees(a1, b1, s, c, r.at);
      var (a2, v2) := Charge(a1, c, s.rate, s.burst, s.maxBuckets, r.at);
      var (b2, _) := Charge(b1, c, s.rate, s.burst, s.maxBuckets, r.at);
      if v2 != Admitted {
        RefundAgrees(a2, b2, s, g, r.at);
      }
    }
  }

  datatype Event = Arrival(r: Request) | Tick(at: real)

  function Time(e: Event): real {
    if e.Arrival? then e.r.at else e.at
  }

  ghost predicate OrderedEvents(es: seq<Event>) {
    forall i, j :: 0 <= i <= j < |es| ==> Time(es[i]) <= Time(es[j])
  }

  function After(bs: Buckets, s: Settings, e: Event, sweeping: bool): Buckets {
    match e
    case Arrival(r) => Decide(bs, s, r).0
    case Tick(at) => if sweeping then Sweep(bs, s.idleTTL, at) else bs
  }

  ghost predicate IsEventRun(run: seq<Buckets>, s: Settings, es: seq<Event>, sweeping: bool) {
    && |run| == |es| + 1
    && run[0] == map[]
    && forall i :: 0 <= i < |es| ==> FollowsEvent(run, s, es, sweeping, i)
  }

  predicate FollowsEvent(run: seq<Buckets>, s: Settings, es: seq<Event>, sweeping: bool, i: int)
    requires |run| == |es| + 1
  {
    0 <= i < |es| && run[i + 1] == After(run[i], s, es[i], sweeping)
  }

  ghost predicate NeverFull(run: seq<Buckets>, s: Settings, es: seq<Event>)
    requires |run| == |es| + 1
  {
    forall i :: 0 <= i < |es| && es[i].Arrival? ==> !LacksCapacity(Decide(run[i], s, es[i].r).1)
  }

  lemma {:induction false} SweptRunEquivalent(swept: seq<Buckets>, kept: seq<Buckets>, s: Settings, es: seq<Event>, i: nat)
    requires ValidSettings(s) && LongIdle(s) && OrderedEvents(es) && i < |es|
    requires IsEventRun(swept, s, es, true) && IsEventRun(kept, s, es, false) && NeverFull(kept, s, es)
    ensures Equivalent(swept[i], kept[i], s, Time(es[i]))
  {
    if i > 0 {
      var e := es[i - 1];
      SweptRunEquivalent(swept, kept, s, es, i - 1);
      assert FollowsEvent(swept, s, es, true, i - 1) && FollowsEvent(kept, s, es, false, i - 1);
      match e {
        case Arrival(r) => DecideAgrees(swept[i - 1], kept[i - 1], s, r);
        case Tick(at) => SweepKeepsEquivalence(swept[i - 1], kept[i - 1], s, at);
      }
      EquivalentLater(swept[i], kept[i], s, Time(e), Time(es[i]));
    }
  }

  /** Sweeping idle buckets, wherever the ticks fall, never changes a decision. */
  lemma {:induction false} SweepingIsInvisible(swept: seq<Buckets>, kept: seq<Buckets>, s: Settings, es: seq<Event>, i: nat)
    requires ValidSettings(s) && LongIdle(s) && OrderedEvents(es) && i < |es| && es[i].Arrival?
    requires IsEventRun(swept, s, es, true) && IsEventRun(kept, s, es, false) && NeverFull(kept, s, es)
    ensures Decide(swept[i], s, es[i].r).1 == Decide(kept[i], s, es[i].r).1
  {
    SweptRunEquivalent(swept, kept, s, es, i);
    DecideAgrees(swept[i], kept[i], s, es[i].r);
  }
}
