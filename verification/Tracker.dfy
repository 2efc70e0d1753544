/**
 Recent-traffic tracker: a bounded list of events sorted by time, which reports
 how many requests fell into the trailing window and whether that number is
 exact or a lower bound. Times are integers relative to Go's zero time.
 */
module Tracker {

  datatype Event = Event(at: int, client: string, action: string)

  /** `evicted` is the latest time of an evicted event, or the zero time. */
  datatype Log = Log(events: seq<Event>, evicted: int)

  const ZERO := 0
  const Empty := Log([], ZERO)

  ghost predicate Sorted(events: seq<Event>) {
    forall i, j :: 0 <= i <= j < |events| ==> events[i].at <= events[j].at
  }

  /** The number of leading events that are not later than `t`. */
  function Position(events: seq<Event>, t: int): (p: nat)
    ensures p <= |events|
  {
    if events == [] || events[0].at > t then 0 else 1 + Position(events[1..], t)
  }

  function Noted(evicted: int, t: int): int {
    if t > evicted then t else evicted
  }

  function Observed(l: Log, capacity: nat, e: Event): Log {
    var p := Position(l.events, e.at);
    if |l.events| < capacity then l.(events := l.events[..p] + [e] + l.events[p..])
    else if p == 0 then l.(evicted := Noted(l.evicted, e.at))
    else Log(l.events[1..p] + [e] + l.events[p..], Noted(l.evicted, l.events[0].at))
  }

  /** The events that are not in the future of `now`. */
  function Past(events: seq<Event>, now: int): seq<Event> {
    if events == [] then []
    else
      var last := events[|events| - 1];
      Past(events[..|events| - 1], now) + (if last.at > now then [] else [last])
  }

  function Pruned(l: Log, now: int): Log {
    Log(Past(l.events, now), if l.evicted > now then ZERO else l.evicted)
  }

  predicate InWindow(t: int, lo: int, hi: int) {
    lo <= t <= hi
  }

  function CountIn(times: seq<int>, lo: int, hi: int): nat {
    if times == [] then 0
    else CountIn(times[..|times| - 1], lo, hi) + (if InWindow(times[|times| - 1], lo, hi) then 1 else 0)
  }

  function Times(events: seq<Event>): (r: seq<int>)
    ensures |r| == |events|
  {
    seq(|events|, i requires 0 <= i < |events| => events[i].at)
  }

  predicate Truncated(l: Log, window: int, now: int) {
    l.evicted != ZERO && l.evicted >= now - window
  }

  /** What a snapshot reports for a pruned log. */
  function RequestsInWindow(l: Log, window: int, now: int): nat {
    CountIn(Times(l.events), now - window, now)
  }

  function MinimumRequests(l: Log, window: int, now: int): nat {
    RequestsInWindow(l, window, now) + (if Truncated(l, window, now) then 1 else 0)
  }

  datatype Kind = AllowedKind | CanceledKind | RejectedKind

  function KindOf(action: string): Kind {
    if action == "ALLOW" || action == "LOG" then AllowedKind
    else if action == "CANCELED" then CanceledKind else RejectedKind
  }

  /** Events from index `i` on, at or after the cutoff, that ended in one kind of decision. */
  function CountKind(events: seq<Event>, cutoff: int, kind: Kind, i: nat): nat
    requires i <= |events|
    decreases |events| - i
  {
    if i == |events| then 0
    else CountKind(events, cutoff, kind, i + 1)
         + (if events[i].at >= cutoff && KindOf(events[i].action) == kind then 1 else 0)
  }

  /** Named clients of the events from index `i` on that are not before the cutoff. */
  function ClientsFrom(events: seq<Event>, cutoff: int, i: nat): set<string>
    requires i <= |events|
    decreases |events| - i
  {
    if i == |events| then {}
    else ClientsFrom(events, cutoff, i + 1)
         + (if events[i].at >= cutoff && events[i].client != "" then {events[i].client} else {})
  }

  /** What the backward scan has counted from index `i` on. */
  datatype Tally = Tally(requests: nat, allowed: nat, rejected: nat, canceled: nat, last: int, clients: set<string>)

  function Tallied(t: Tally, e: Event, i: nat): Tally {
    Tally(t.requests + 1, t.allowed + (if KindOf(e.action) == AllowedKind then 1 else 0),
          t.rejected + (if KindOf(e.action) != AllowedKind && KindOf(e.action) != CanceledKind then 1 else 0),
          t.canceled + (if KindOf(e.action) == CanceledKind then 1 else 0),
          if t.last == -1 then i else t.last, if e.client == "" then t.clients else t.clients + {e.client})
  }

  function TallyFrom(events: seq<Event>, cutoff: int, i: nat): Tally
    requires i <= |events|
    decreases |events| - i
  {
    if i == |events| then Tally(0, 0, 0, 0, -1, {})
    else
      var t := TallyFrom(events, cutoff, i + 1);
      if events[i].at >= cutoff then Tallied(t, events[i], i) else t
  }

  lemma {:induction false} TallyKinds(events: seq<Event>, cutoff: int, i: nat)
    requires i <= |events|
    ensures var t := TallyFrom(events, cutoff, i);
            && t.allowed + t.rejected + t.canceled == t.requests && t.clients == ClientsFrom(events, cutoff, i)
            && t.allowed == CountKind(events, cutoff, AllowedKind, i) && t.canceled == CountKind(events, cutoff, CanceledKind, i)
            && t.rejected == CountKind(events, cutoff, RejectedKind, i)
    decreases |events| - i
  {
    if i < |events| {
      TallyKinds(events, cutoff, i + 1);
    }
  }

  lemma {:induction false} TallyCounts(events: seq<Event>, cutoff: int, now: int, i: nat)
    requires i <= |events| && forall k :: 0 <= k < |events| ==> events[k].at <= now
    ensures var all := Times(events);
            TallyFrom(events, cutoff, i).requests + CountIn(all[..i], cutoff, now) == CountIn(all, cutoff, now)
    decreases |events| - i
  {
    var all := Times(events);
    if i == |events| {
      assert all[..i] == all;
    } else {
      TallyCounts(events, cutoff, now, i + 1);
      assert all[..i + 1][..i] == all[..i];
    }
  }

  /** In time order, the last event counted is the last of all. */
  lemma {:induction false} TallyLast(events: seq<Event>, cutoff: int, i: nat)
    requires Sorted(events) && i <= |events|
    ensures var t := TallyFrom(events, cutoff, i);
            && t.last == (if t.requests == 0 then -1 else |events| - 1)
            && (t.requests == 0 ==> forall k :: i <= k < |events| ==> events[k].at < cutoff)
    decreases |events| - i
  {
    if i < |events| {
      TallyLast(events, cutoff, i + 1);
    }
  }

  /** The events from `i` on, at or after the cutoff, whose action is one of `actions`, or is not. */
  ghost function Ended(events: seq<Event>, cutoff: int, i: nat, actions: set<string>, listed: bool): set<int> {
    set k | i <= k < |events| && events[k].at >= cutoff && (events[k].action in actions) == listed
  }

  const Admitted := {"ALLOW", "LOG"}
  const Abandoned := {"CANCELED"}

  lemma {:induction false} EndedStep(events: seq<Event>, cutoff: int, i: nat, actions: set<string>, listed: bool)
    requires i < |events|
    ensures |Ended(events, cutoff, i, actions, listed)| == |Ended(events, cutoff, i + 1, actions, listed)|
            + (if events[i].at >= cutoff && (events[i].action in actions) == listed then 1 else 0)
  {
    var rest := Ended(events, cutoff, i + 1, actions, listed);
    assert i !in rest;
    if events[i].at >= cutoff && (events[i].action in actions) == listed {
      assert Ended(events, cutoff, i, actions, listed) == rest + {i};
    } else {
      assert Ended(events, cutoff, i, actions, listed) == rest;
    }
  }

  /** Which actions count as what. */
  lemma {:induction false} KindsMean(events: seq<Event>, cutoff: int, i: nat)
    requires i <= |events|
    ensures CountKind(events, cutoff, AllowedKind, i) == |Ended(events, cutoff, i, Admitted, true)|
    ensures CountKind(events, cutoff, CanceledKind, i) == |Ended(events, cutoff, i, Abandoned, true)|
    ensures CountKind(events, cutoff, RejectedKind, i) == |Ended(events, cutoff, i, Admitted + Abandoned, false)|
    decreases |events| - i
  {
    if i < |events| {
      KindsMean(events, cutoff, i + 1);
      EndedStep(events, cutoff, i, Admitted, true);
      EndedStep(events, cutoff, i, Abandoned, true);
      EndedStep(events, cutoff, i, Admitted + Abandoned, false);
    }
  }

  /** The clients counted are those named by an event of the window. */
  lemma {:induction false} ClientsIff(events: seq<Event>, cutoff: int, i: nat, c: string)
    requires i <= |events|
    ensures c in ClientsFrom(events, cutoff, i) <==> c != "" && exists k :: i <= k < |events| && events[k].at >= cutoff && events[k].client == c
    decreases |events| - i
  {
    if i < |events| {
      ClientsIff(events, cutoff, i + 1, c);
    }
  }

  // ----- the tracker --------------------------------------------------------

  datatype Snapshot = Snapshot(
    truncated: bool, minimum: nat, requests: nat, uniqueClients: nat, allowed: nat, rejected: nat, canceled: nat,
    lastRequest: int)

  lemma {:induction false} PositionSplits(events: seq<Event>, t: int, p: nat)
    requires Sorted(events) && p <= |events|
    requires forall i :: 0 <= i < p ==> events[i].at <= t
    requires forall i :: p <= i < |events| ==> events[i].at > t
    ensures Position(events, t) == p
  {
    if p > 0 {
      PositionSplits(events[1..], t, p - 1);
    }
  }

  lemma {:induction false} PastOfSorted(events: seq<Event>, now: int)
    requires Sorted(events)
    ensures Past(events, now) == events[..Position(events, now)]
    ensures Position(events, now) == |events| <==> (events == [] || events[|events| - 1].at <= now)
  {
    if events != [] {
      var front, last := events[..|events| - 1], events[|events| - 1];
      PastOfSorted(front, now);
      PositionOfFront(events, now);
    }
  }

  lemma {:induction false} PositionOfFront(events: seq<Event>, t: int)
    requires events != [] && Sorted(events)
    ensures var front := events[..|events| - 1];
            Position(events, t) == if events[|events| - 1].at <= t then |events| else Position(front, t)
  {
    var front := events[..|events| - 1];
    if |events| > 1 {
      assert events[1..][..|events| - 2] == front[1..];
      PositionOfFront(events[1..], t);
    }
  }

  class Recent {
    const capacity: nat
    const window: int
    var events: seq<Event>
    var latestEvictedAt: int

    ghost predicate Valid()
      reads this
    {
      Sorted(events) && |events| <= capacity
    }

    ghost function View(): Log
      reads this
    {
      Log(events, latestEvictedAt)
    }

    constructor (capacity: int, window: int)
      ensures Valid() && View() == Empty
      ensures this.capacity == if capacity <= 0 then 512 else capacity
      ensures this.window == if window <= 0 then 300_000_000_000 else window
    {
      this.capacity := if capacity <= 0 then 512 else capacity;
      this.window := if window <= 0 then 300_000_000_000 else window;
      events, latestEvictedAt := [], ZERO;
    }

    /** Binary search for the first event later than `t`. */
    method Search(t: int) returns (p: nat)
      requires Sorted(events)
      ensures p == Position(events, t)
    {
      var i, j := 0, |events|;
      while i < j
        invariant 0 <= i <= j <= |events|
        invariant forall k :: 0 <= k < i ==> events[k].at <= t
        invariant forall k :: j <= k < |events| ==> events[k].at > t
      {
        var h := (i + j) / 2;
        if events[h].at <= t {
          i := h + 1;
        } else {
          j := h;
        }
      }
      PositionSplits(events, t, i);
      p := i;
    }

    method NoteEvicted(t: int)
      modifies `latestEvictedAt
      ensures latestEvictedAt == Noted(old(latestEvictedAt), t)
    {
      if t > latestEvictedAt {
        latestEvictedAt := t;
      }
    }

    method Observe(e: Event)
      requires Valid()
      modifies `events, `latestEvictedAt
      ensures Valid()
      ensures View() == Observed(old(View()), capacity, e)
    {
      var p := Search(e.at);
      InsertKeepsOrder(events, e);
      if |events| < capacity {
        events := events[..p] + [e] + events[p..];
        return;
      }
      if p == 0 {
        NoteEvicted(e.at);
        return;
      }
      NoteEvicted(events[0].at);
      events := events[1..p] + [e] + events[p..];
    }

    /** Drop what lies in the future, then count the window newest first. */
    method TakeSnapshot(now: int) returns (r: Snapshot)
      requires Valid()
      modifies `events, `latestEvictedAt
      ensures Valid() && View() == Pruned(old(View()), now)
      ensures r.requests == RequestsInWindow(View(), window, now)
      ensures r.minimum == MinimumRequests(View(), window, now)
      ensures r.truncated == Truncated(View(), window, now)
      ensures r.allowed + r.rejected + r.canceled == r.requests
      ensures r.allowed == |Ended(events, now - window, 0, Admitted, true)|
      ensures r.canceled == |Ended(events, now - window, 0, Abandoned, true)|
      ensures r.rejected == |Ended(events, now - window, 0, Admitted + Abandoned, false)|
      ensures r.lastRequest == if r.requests == 0 then -1 else |events| - 1
      ensures r.uniqueClients == |ClientsFrom(events, now - window, 0)|
    {
      ghost var before := events;
      PastOfSorted(events, now);
      var kept: seq<Event> := [];
      for i := 0 to |events|
        invariant events == before && kept == Past(events[..i], now)
      {
        assert events[..i + 1][..i] == events[..i];
        if events[i].at <= now {
          kept := kept + [events[i]];
        }
      }
      assert events[..|events|] == events;
      events := kept;
      if latestEvictedAt > now {
        latestEvictedAt := ZERO;
      }
      PastIsPast(before, now);
      r := Summarize(now);
    }

    method Summarize(now: int) returns (r: Snapshot)
      requires Sorted(events) && forall i :: 0 <= i < |events| ==> events[i].at <= now
      ensures r.requests == RequestsInWindow(View(), window, now)
      ensures r.minimum == MinimumRequests(View(), window, now)
      ensures r.truncated == Truncated(View(), window, now)
      ensures r.allowed + r.rejected + r.canceled == r.requests
      ensures r.allowed == |Ended(events, now - window, 0, Admitted, true)|
      ensures r.canceled == |Ended(events, now - window, 0, Abandoned, true)|
      ensures r.rejected == |Ended(events, now - window, 0, Admitted + Abandoned, false)|
      ensures r.lastRequest == if r.requests == 0 then -1 else |events| - 1
      ensures r.uniqueClients == |ClientsFrom(events, now - window, 0)|
    {
      var cutoff := now - window;
      var clients: set<string> := {};
      var requests, allowed, rejected, canceled, last := 0, 0, 0, 0, -1;
      var i := |events|;
      while i > 0
        invariant 0 <= i <= |events|
        invariant Tally(requests, allowed, rejected, canceled, last, clients) == TallyFrom(events, cutoff, i)
      {
        i := i - 1;
        var e := events[i];
        if e.at >= cutoff {
          if last == -1 {
            last := i;
          }
          requests := requests + 1;
          if e.client != "" {
            clients := clients + {e.client};
          }
          if e.action == "ALLOW" || e.action == "LOG" {
            allowed := allowed + 1;
          } else if e.action == "CANCELED" {
            canceled := canceled + 1;
          } else {
            rejected := rejected + 1;
          }
        }
      }
      TallyKinds(events, cutoff, 0);
      KindsMean(events, cutoff, 0);
      TallyCounts(events, cutoff, now, 0);
      TallyLast(events, cutoff, 0);
      var truncated := latestEvictedAt != ZERO && latestEvictedAt >= cutoff;
      r := Snapshot(truncated, if truncated then requests + 1 else requests, requests, |clients|, allowed, rejected, canceled, last);
    }
  }

  lemma {:induction false} PositionBounds(events: seq<Event>, t: int)
    requires Sorted(events)
    ensures forall i :: 0 <= i < Position(events, t) ==> events[i].at <= t
    ensures forall i :: Position(events, t) <= i < |events| ==> events[i].at > t
  {
    if events != [] && events[0].at <= t {
      PositionBounds(events[1..], t);
      assert forall i :: 1 <= i < |events| ==> events[i] == events[1..][i - 1];
    }
  }

  /** Inserting at the search position keeps the order, with or without dropping the oldest. */
  lemma {:induction false} InsertKeepsOrder(events: seq<Event>, e: Event)
    requires Sorted(events)
    ensures var p := Position(events, e.at);
            && Sorted(events[..p] + [e] + events[p..])
            && (p > 0 ==> Sorted(events[1..p] + [e] + events[p..]))
  {
    PositionBounds(events, e.at);
    var p := Position(events, e.at);
    var longer := events[..p] + [e] + events[p..];
    assert Sorted(longer);
    if p > 0 {
      assert events[1..p] + [e] + events[p..] == longer[1..];
    }
  }

  /** Nothing is pruned when nothing lies in the future. */
  lemma {:induction false} PastAll(events: seq<Event>, now: int)
    requires forall i :: 0 <= i < |events| ==> events[i].at <= now
    ensures Past(events, now) == events
  {
    if events != [] {
      PastAll(events[..|events| - 1], now);
    }
  }

  lemma {:induction false} PastIsPast(events: seq<Event>, now: int)
    requires Sorted(events)
    ensures Sorted(Past(events, now)) && |Past(events, now)| <= |events|
    ensures forall i :: 0 <= i < |Past(events, now)| ==> Past(events, now)[i].at <= now
  {
    PastOfSorted(events, now);
    PositionBounds(events, now);
  }

  // ----- runs ---------------------------------------------------------------

  datatype Op = Seen(e: Event) | Taken(now: int)

  function Apply(l: Log, capacity: nat, op: Op): Log {
    if op.Seen? then Observed(l, capacity, op.e) else Pruned(l, op.now)
  }

  /** Times of the events a step lets go. */
  function LostBy(l: Log, capacity: nat, op: Op): seq<int> {
    match op
    case Seen(e) =>
      if |l.events| < capacity then []
      else if Position(l.events, e.at) == 0 then [e.at] else [l.events[0].at]
    case Taken(now) => Times(l.events[Position(l.events, now)..])
  }

  ghost predicate Follows(run: seq<Log>, capacity: nat, ops: seq<Op>, i: nat)
    requires i < |ops| && |run| == |ops| + 1
  {
    run[i + 1] == Apply(run[i], capacity, ops[i])
  }

  ghost predicate IsRun(run: seq<Log>, capacity: nat, ops: seq<Op>) {
    && |run| == |ops| + 1 && run[0] == Empty
    && forall i :: 0 <= i < |ops| ==> Follows(run, capacity, ops, i)
  }

  /** Times of all events observed before step `i`. */
  function SeenTimes(ops: seq<Op>, i: nat): seq<int>
    requires i <= |ops|
  {
    if i == 0 then [] else SeenTimes(ops, i - 1) + (if ops[i - 1].Seen? then [ops[i - 1].e.at] else [])
  }

  function LostTimes(run: seq<Log>, capacity: nat, ops: seq<Op>, i: nat): seq<int>
    requires i <= |ops| && |run| == |ops| + 1
  {
    if i == 0 then [] else LostTimes(run, capacity, ops, i - 1) + LostBy(run[i - 1], capacity, ops[i - 1])
  }

  lemma {:induction false} CountConcat(a: seq<int>, b: seq<int>, lo: int, hi: int)
    ensures CountIn(a + b, lo, hi) == CountIn(a, lo, hi) + CountIn(b, lo, hi)
  {
    if b == [] {
      assert a + b == a;
    } else {
      assert (a + b)[..|a + b| - 1] == a + b[..|b| - 1];
      CountConcat(a, b[..|b| - 1], lo, hi);
    }
  }

  lemma {:induction false} TimesConcat(a: seq<Event>, b: seq<Event>)
    ensures Times(a + b) == Times(a) + Times(b)
  {
  }

  lemma {:induction false} CountSplit(a: seq<Event>, b: seq<Event>, lo: int, hi: int)
    ensures CountIn(Times(a + b), lo, hi) == CountIn(Times(a), lo, hi) + CountIn(Times(b), lo, hi)
  {
    TimesConcat(a, b);
    CountConcat(Times(a), Times(b), lo, hi);
  }

  lemma {:induction false} CountOne(t: int, lo: int, hi: int)
    ensures CountIn([t], lo, hi) == if InWindow(t, lo, hi) then 1 else 0
  {
    assert [t][..0] == [] && CountIn([], lo, hi) == 0;
  }

  lemma {:induction false} StepKeepsOrder(l: Log, capacity: nat, op: Op)
    requires Sorted(l.events) && |l.events| <= capacity
    ensures Sorted(Apply(l, capacity, op).events) && |Apply(l, capacity, op).events| <= capacity
  {
    match op
    case Seen(e) => InsertKeepsOrder(l.events, e);
    case Taken(now) => PastIsPast(l.events, now);
  }

  lemma {:induction false} InsertCounts(a: seq<Event>, e: Event, b: seq<Event>, lo: int, hi: int)
    ensures CountIn(Times(a + [e] + b), lo, hi)
            == CountIn(Times(a), lo, hi) + (if InWindow(e.at, lo, hi) then 1 else 0) + CountIn(Times(b), lo, hi)
  {
    assert Times([e]) == [e.at];
    CountOne(e.at, lo, hi);
    CountSplit(a, [e], lo, hi);
    CountSplit(a + [e], b, lo, hi);
  }

  /** A full log gives up its first event for one that comes later. */
  lemma {:induction false} ShiftCounts(ev: seq<Event>, p: nat, e: Event, lo: int, hi: int)
    requires 0 < p <= |ev|
    ensures CountIn(Times(ev), lo, hi) + (if InWindow(e.at, lo, hi) then 1 else 0)
            == CountIn(Times(ev[1..p] + [e] + ev[p..]), lo, hi) + CountIn([ev[0].at], lo, hi)
  {
    var rest, b := ev[1..p], ev[p..];
    assert ev == [] + [ev[0]] + (rest + b);
    InsertCounts([], ev[0], rest + b, lo, hi);
    CountSplit(rest, b, lo, hi);
    CountOne(ev[0].at, lo, hi);
    InsertCounts(rest, e, b, lo, hi);
  }

  lemma {:induction false} SeenConserves(l: Log, capacity: nat, e: Event, lo: int, hi: int)
    requires Sorted(l.events) && |l.events| <= capacity
    ensures CountIn(Times(l.events), lo, hi) + (if InWindow(e.at, lo, hi) then 1 else 0)
            == CountIn(Times(Observed(l, capacity, e).events), lo, hi) + CountIn(LostBy(l, capacity, Seen(e)), lo, hi)
  {
    var ev := l.events;
    var p := Position(ev, e.at);
    if |ev| < capacity {
      assert ev == ev[..p] + ev[p..];
      CountSplit(ev[..p], ev[p..], lo, hi);
      InsertCounts(ev[..p], e, ev[p..], lo, hi);
    } else if p == 0 {
      CountOne(e.at, lo, hi);
    } else {
      ShiftCounts(ev, p, e, lo, hi);
    }
  }

  /** No event is lost uncounted: retained and lost together are what was observed. */
  lemma {:induction false} StepConserves(l: Log, capacity: nat, op: Op, lo: int, hi: int)
    requires Sorted(l.events) && |l.events| <= capacity
    ensures CountIn(Times(l.events), lo, hi) + (if op.Seen? && InWindow(op.e.at, lo, hi) then 1 else 0)
            == CountIn(Times(Apply(l, capacity, op).events), lo, hi) + CountIn(LostBy(l, capacity, op), lo, hi)
  {
    match op
    case Seen(e) => SeenConserves(l, capacity, e, lo, hi);
    case Taken(now) =>
      var p := Position(l.events, now);
      PastOfSorted(l.events, now);
      assert l.events == l.events[..p] + l.events[p..];
      CountSplit(l.events[..p], l.events[p..], lo, hi);
  }

  lemma {:induction false} RunOrdered(run: seq<Log>, capacity: nat, ops: seq<Op>, i: nat)
    requires IsRun(run, capacity, ops) && i < |run|
    ensures Sorted(run[i].events) && |run[i].events| <= capacity
  {
    if i > 0 {
      RunOrdered(run, capacity, ops, i - 1);
      StepKeepsOrder(run[i - 1], capacity, ops[i - 1]);
      assert Follows(run, capacity, ops, i - 1);
    }
  }

  lemma {:induction false} SeenTimesStep(ops: seq<Op>, i: nat, lo: int, hi: int)
    requires 0 < i <= |ops|
    ensures CountIn(SeenTimes(ops, i), lo, hi)
            == CountIn(SeenTimes(ops, i - 1), lo, hi) + (if ops[i - 1].Seen? && InWindow(ops[i - 1].e.at, lo, hi) then 1 else 0)
  {
    var before, op := SeenTimes(ops, i - 1), ops[i - 1];
    if op.Seen? {
      CountConcat(before, [op.e.at], lo, hi);
      CountOne(op.e.at, lo, hi);
    } else {
      assert before + [] == before;
    }
  }

  lemma {:induction false} LostTimesStep(run: seq<Log>, capacity: nat, ops: seq<Op>, i: nat, lo: int, hi: int)
    requires 0 < i <= |ops| && |run| == |ops| + 1
    ensures CountIn(LostTimes(run, capacity, ops, i), lo, hi)
            == CountIn(LostTimes(run, capacity, ops, i - 1), lo, hi) + CountIn(LostBy(run[i - 1], capacity, ops[i - 1]), lo, hi)
  {
    CountConcat(LostTimes(run, capacity, ops, i - 1), LostBy(run[i - 1], capacity, ops[i - 1]), lo, hi);
  }

  ghost predicate Conserved(run: seq<Log>, capacity: nat, ops: seq<Op>, i: nat, lo: int, hi: int)
    requires |run| == |ops| + 1 && i < |run|
  {
    CountIn(SeenTimes(ops, i), lo, hi)
    == CountIn(Times(run[i].events), lo, hi) + CountIn(LostTimes(run, capacity, ops, i), lo, hi)
  }

  lemma {:induction false} ConservedStep(run: seq<Log>, capacity: nat, ops: seq<Op>, i: nat, lo: int, hi: int)
    requires |run| == |ops| + 1 && 0 < i < |run| && run[i] == Apply(run[i - 1], capacity, ops[i - 1])
    requires Sorted(run[i - 1].events) && |run[i - 1].events| <= capacity && Conserved(run, capacity, ops, i - 1, lo, hi)
    ensures Conserved(run, capacity, ops, i, lo, hi)
  {
    StepConserves(run[i - 1], capacity, ops[i - 1], lo, hi);
    LostTimesStep(run, capacity, ops, i, lo, hi);
    SeenTimesStep(ops, i, lo, hi);
  }

  lemma {:induction false} RunConserves(run: seq<Log>, capacity: nat, ops: seq<Op>, i: nat, lo: int, hi: int)
    requires IsRun(run, capacity, ops) && i < |run|
    ensures Conserved(run, capacity, ops, i, lo, hi)
  {
    if i > 0 {
      RunConserves(run, capacity, ops, i - 1, lo, hi);
      RunOrdered(run, capacity, ops, i - 1);
      assert Follows(run, capacity, ops, i - 1);
      ConservedStep(run, capacity, ops, i, lo, hi);
    }
  }

  lemma {:induction false} MarkerStep(l: Log, capacity: nat, op: Op)
    ensures var after := Apply(l, capacity, op);
            && (after.evicted == ZERO || after.evicted == l.evicted || after.evicted in LostBy(l, capacity, op))
            && (op.Seen? ==> after.evicted >= l.evicted
                             && forall t :: t in LostBy(l, capacity, op) ==> t <= after.evicted)
  {
  }

  /** The truncation marker is always the time of an event that really was lost. */
  lemma {:induction false} MarkerIsReal(run: seq<Log>, capacity: nat, ops: seq<Op>, i: nat)
    requires IsRun(run, capacity, ops) && i < |run|
    ensures run[i].evicted == ZERO || run[i].evicted in LostTimes(run, capacity, ops, i)
  {
    if i > 0 {
      MarkerIsReal(run, capacity, ops, i - 1);
      MarkerStep(run[i - 1], capacity, ops[i - 1]);
      assert Follows(run, capacity, ops, i - 1);
      var lost, more := LostTimes(run, capacity, ops, i - 1), LostBy(run[i - 1], capacity, ops[i - 1]);
      assert forall t :: t in lost + more <==> t in lost || t in more;
    }
  }

  lemma {:induction false} MemberCounts(times: seq<int>, t: int, lo: int, hi: int)
    requires t in times && InWindow(t, lo, hi)
    ensures CountIn(times, lo, hi) >= 1
  {
    if times[|times| - 1] != t {
      MemberCounts(times[..|times| - 1], t, lo, hi);
    }
  }

  lemma {:induction false} NothingCounts(times: seq<int>, lo: int, hi: int)
    requires forall t :: t in times ==> !InWindow(t, lo, hi)
    ensures CountIn(times, lo, hi) == 0
  {
    if times != [] {
      NothingCounts(times[..|times| - 1], lo, hi);
    }
  }

  /** In every run the reported minimum is at most the true number of observed events in the window. */
  lemma {:induction false} MinimumNeverExceedsTruth(run: seq<Log>, capacity: nat, window: nat, ops: seq<Op>, i: nat)
    requires IsRun(run, capacity, ops) && i < |ops| && ops[i].Taken?
    ensures MinimumRequests(run[i + 1], window, ops[i].now)
            <= CountIn(SeenTimes(ops, i + 1), ops[i].now - window, ops[i].now)
  {
    var now := ops[i].now;
    var lo := now - window;
    RunConserves(run, capacity, ops, i + 1, lo, now);
    MarkerIsReal(run, capacity, ops, i + 1);
    assert Follows(run, capacity, ops, i);
    if Truncated(run[i + 1], window, now) {
      MemberCounts(LostTimes(run, capacity, ops, i + 1), run[i + 1].evicted, lo, now);
    }
  }

  // ----- when the count is exact --------------------------------------------

  /** No snapshot is taken at a time before an event that was already observed. */
  ghost predicate ClockForward(ops: seq<Op>) {
    forall k, t :: 0 <= k < |ops| && ops[k].Taken? && t in SeenTimes(ops, k) ==> t <= ops[k].now
  }

  lemma {:induction false} RetainedWereSeen(run: seq<Log>, capacity: nat, ops: seq<Op>, i: nat, t: int)
    requires IsRun(run, capacity, ops) && i < |run|
    requires t in Times(run[i].events) || t in LostTimes(run, capacity, ops, i)
    ensures t in SeenTimes(ops, i)
  {
    RunConserves(run, capacity, ops, i, t, t);
    if t in Times(run[i].events) {
      MemberCounts(Times(run[i].events), t, t, t);
    } else {
      MemberCounts(LostTimes(run, capacity, ops, i), t, t, t);
    }
    if t !in SeenTimes(ops, i) {
      NothingCounts(SeenTimes(ops, i), t, t);
    }
  }

  /** A snapshot that is not behind any observed event prunes nothing and keeps the marker. */
  lemma {:induction false} ForwardSnapshotPrunesNothing(run: seq<Log>, capacity: nat, ops: seq<Op>, i: nat)
    requires IsRun(run, capacity, ops) && ClockForward(ops) && i < |ops| && ops[i].Taken?
    requires run[i].evicted >= ZERO
    ensures LostBy(run[i], capacity, ops[i]) == []
    ensures run[i + 1].evicted == run[i].evicted
  {
    var l, now := run[i], ops[i].now;
    RunOrdered(run, capacity, ops, i);
    MarkerIsReal(run, capacity, ops, i);
    if l.evicted in LostTimes(run, capacity, ops, i) {
      RetainedWereSeen(run, capacity, ops, i, l.evicted);
    }
    if l.events != [] {
      assert l.events[|l.events| - 1].at == Times(l.events)[|l.events| - 1];
      RetainedWereSeen(run, capacity, ops, i, l.events[|l.events| - 1].at);
    }
    PastOfSorted(l.events, now);
    assert l.events[|l.events|..] == [];
    assert Follows(run, capacity, ops, i);
  }

  /** With a forward clock only evictions lose events, and the marker bounds them all. */
  lemma {:induction false} MarkerBoundsLost(run: seq<Log>, capacity: nat, ops: seq<Op>, i: nat)
    requires IsRun(run, capacity, ops) && ClockForward(ops) && i < |run|
    ensures run[i].evicted >= ZERO
    ensures forall t :: t in LostTimes(run, capacity, ops, i) ==> t <= run[i].evicted
  {
    if i > 0 {
      MarkerBoundsLost(run, capacity, ops, i - 1);
      var lost, more := LostTimes(run, capacity, ops, i - 1), LostBy(run[i - 1], capacity, ops[i - 1]);
      assert forall t :: t in lost + more <==> t in lost || t in more;
      assert Follows(run, capacity, ops, i - 1);
      if ops[i - 1].Seen? {
        MarkerStep(run[i - 1], capacity, ops[i - 1]);
      } else {
        ForwardSnapshotPrunesNothing(run, capacity, ops, i - 1);
      }
    }
  }

  /** A window after the zero time that is not marked truncated is counted exactly. */
  lemma {:induction false} UntruncatedIsExact(run: seq<Log>, capacity: nat, window: nat, ops: seq<Op>, i: nat)
    requires IsRun(run, capacity, ops) && ClockForward(ops) && i < |ops| && ops[i].Taken?
    requires !Truncated(run[i + 1], window, ops[i].now) && ops[i].now - window > ZERO
    ensures RequestsInWindow(run[i + 1], window, ops[i].now)
            == CountIn(SeenTimes(ops, i + 1), ops[i].now - window, ops[i].now)
  {
    var now := ops[i].now;
    RunConserves(run, capacity, ops, i + 1, now - window, now);
    MarkerBoundsLost(run, capacity, ops, i + 1);
    NothingCounts(LostTimes(run, capacity, ops, i + 1), now - window, now);
  }

  /** A snapshot of a window after the zero time is marked truncated exactly when it counts fewer events than were observed. */
  lemma {:induction false} TruncatedIff(run: seq<Log>, capacity: nat, window: nat, ops: seq<Op>, i: nat)
    requires IsRun(run, capacity, ops) && ClockForward(ops) && i < |ops| && ops[i].Taken? && ops[i].now - window > ZERO
    ensures Truncated(run[i + 1], window, ops[i].now) <==>
              RequestsInWindow(run[i + 1], window, ops[i].now) < CountIn(SeenTimes(ops, i + 1), ops[i].now - window, ops[i].now)
  {
    if Truncated(run[i + 1], window, ops[i].now) {
      MinimumNeverExceedsTruth(run, capacity, window, ops, i);
    } else {
      UntruncatedIsExact(run, capacity, window, ops, i);
    }
  }

  /** The run that observes the same moment over and over. */
  function Repeated(t: int, n: nat): seq<Op> {
    seq(n, _ => Seen(Event(t, "", "ALLOW")))
  }

  function AfterRepeated(capacity: nat, t: int, n: nat): Log {
    if n == 0 then Empty else Observed(AfterRepeated(capacity, t, n - 1), capacity, Event(t, "", "ALLOW"))
  }

  lemma {:induction false} RepeatedFillsUp(capacity: nat, t: int, n: nat)
    requires t <= ZERO && capacity >= 1
    ensures AfterRepeated(capacity, t, n)
            == Log(seq(if n < capacity then n else capacity, _ => Event(t, "", "ALLOW")), ZERO)
  {
    if n > 0 {
      RepeatedFillsUp(capacity, t, n - 1);
      var e := Event(t, "", "ALLOW");
      var held := if n - 1 < capacity then n - 1 else capacity;
      var ev := seq(held, _ => e);
      PositionSplits(ev, t, held);
      Refill(held, e);
    }
  }

  lemma {:induction false} Refill(n: nat, e: Event)
    ensures var ev := seq(n, _ => e);
            ev[..n] + [e] + ev[n..] == seq(n + 1, _ => e) && (n > 0 ==> ev[1..n] + [e] + ev[n..] == ev)
  {
    var ev := seq(n, _ => e);
    assert ev[n..] == [];
    assert forall i :: 0 <= i < n ==> ev[i] == e;
  }

  lemma {:induction false} CountRepeated(n: nat, t: int, lo: int, hi: int)
    requires InWindow(t, lo, hi)
    ensures CountIn(seq(n, _ => t), lo, hi) == n
  {
    var s := seq(n, _ => t);
    if n > 0 {
      assert s[..n - 1] == seq(n - 1, _ => t);
      CountRepeated(n - 1, t, lo, hi);
    }
  }

  lemma {:induction false} SeenRepeated(ops: seq<Op>, t: int, i: nat)
    requires i <= |ops| && forall k :: 0 <= k < i ==> ops[k] == Seen(Event(t, "", "ALLOW"))
    ensures SeenTimes(ops, i) == seq(i, _ => t)
  {
    if i > 0 {
      SeenRepeated(ops, t, i - 1);
    }
  }

  lemma {:induction false} RepeatedRun(capacity: nat, t: int, n: nat, now: int) returns (run: seq<Log>, ops: seq<Op>)
    ensures |ops| == n + 1 && ops[n] == Taken(now) && forall k :: 0 <= k < n ==> ops[k] == Seen(Event(t, "", "ALLOW"))
    ensures IsRun(run, capacity, ops) && run[n + 1] == Pruned(AfterRepeated(capacity, t, n), now)
  {
    ops := Repeated(t, n) + [Taken(now)];
    var full := seq(n + 1, i requires 0 <= i <= n => AfterRepeated(capacity, t, i));
    run := full + [Pruned(AfterRepeated(capacity, t, n), now)];
    forall i | 0 <= i < |ops| ensures Follows(run, capacity, ops, i) {
      assert i < n ==> run[i + 1] == full[i + 1];
    }
  }

  lemma {:induction false} RepeatedReport(capacity: nat, t: int, n: nat, window: nat, now: int)
    requires t <= ZERO && capacity >= 1 && n >= capacity && InWindow(t, now - window, now)
    ensures var l := Pruned(AfterRepeated(capacity, t, n), now);
            !Truncated(l, window, now) && RequestsInWindow(l, window, now) == capacity
  {
    RepeatedFillsUp(capacity, t, n);
    ReportOfRepeated(AfterRepeated(capacity, t, n), capacity, t, window, now);
  }

  lemma {:induction false} ReportOfRepeated(l: Log, n: nat, t: int, window: nat, now: int)
    requires l == Log(seq(n, _ => Event(t, "", "ALLOW")), ZERO) && InWindow(t, now - window, now)
    ensures !Truncated(Pruned(l, now), window, now) && RequestsInWindow(Pruned(l, now), window, now) == n
  {
    PastAll(l.events, now);
    CountRepeatedEvents(n, t, now - window, now);
  }

  lemma {:induction false} CountRepeatedEvents(n: nat, t: int, lo: int, hi: int)
    requires InWindow(t, lo, hi)
    ensures CountIn(Times(seq(n, _ => Event(t, "", "ALLOW"))), lo, hi) == n
  {
    assert Times(seq(n, _ => Event(t, "", "ALLOW"))) == seq(n, _ => t);
    CountRepeated(n, t, lo, hi);
  }

  /**
   A window that reaches back to the zero time or further can be wrong without
   being marked: one event more than fits, all at its lower end.
   */
  lemma {:induction false} ZeroTimeWindowCanBeWrong(capacity: nat, window: nat, now: int)
    returns (run: seq<Log>, ops: seq<Op>)
    requires capacity >= 1 && now - window <= ZERO
    ensures ops != [] && ops[|ops| - 1] == Taken(now) && IsRun(run, capacity, ops) && ClockForward(ops)
    ensures !Truncated(run[|ops|], window, now)
    ensures RequestsInWindow(run[|ops|], window, now) < CountIn(SeenTimes(ops, |ops|), now - window, now)
  {
    var t, n := now - window, capacity + 1;
    run, ops := RepeatedRun(capacity, t, n, now);
    RepeatedReport(capacity, t, n, window, now);
    RepeatedClock(ops, t, n, now);
    assert CountIn(SeenTimes(ops, n + 1), t, now) == n;
  }

  lemma {:induction false} RepeatedClock(ops: seq<Op>, t: int, n: nat, now: int)
    requires |ops| == n + 1 && ops[n] == Taken(now) && t <= now
    requires forall k :: 0 <= k < n ==> ops[k] == Seen(Event(t, "", "ALLOW"))
    ensures ClockForward(ops) && CountIn(SeenTimes(ops, n + 1), t, now) == n
  {
    SeenRepeated(ops, t, n);
    assert SeenTimes(ops, n + 1) == SeenTimes(ops, n);
    CountRepeated(n, t, t, now);
    forall k, x | 0 <= k < |ops| && ops[k].Taken? && x in SeenTimes(ops, k) ensures x <= ops[k].now {
      assert k == n;
    }
  }

  /** Every untruncated snapshot at `now` reports the exact count. */
  ghost predicate AlwaysExact(capacity: nat, window: nat, now: int) {
    forall run, ops :: IsRun(run, capacity, ops) && ClockForward(ops) && ops != [] && ops[|ops| - 1] == Taken(now)
                       && !Truncated(run[|ops|], window, now) ==>
      RequestsInWindow(run[|ops|], window, now) == CountIn(SeenTimes(ops, |ops|), now - window, now)
  }

  /** The count is exact in every run exactly when the window begins after the zero time. */
  lemma {:induction false} ExactIff(capacity: nat, window: nat, now: int)
    requires capacity >= 1
    ensures AlwaysExact(capacity, window, now) <==> now - window > ZERO
  {
    if now - window > ZERO {
      forall run, ops | IsRun(run, capacity, ops) && ClockForward(ops) && ops != [] && ops[|ops| - 1] == Taken(now)
                        && !Truncated(run[|ops|], window, now)
        ensures RequestsInWindow(run[|ops|], window, now) == CountIn(SeenTimes(ops, |ops|), now - window, now)
      {
        UntruncatedIsExact(run, capacity, window, ops, |ops| - 1);
      }
    } else {
      var run, ops := ZeroTimeWindowCanBeWrong(capacity, window, now);
    }
  }
}
