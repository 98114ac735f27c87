/** `ratelimit`: one next-slot time per record kind. Instants and intervals are whole nanoseconds. */
module RateLimit {
  import opened Text

  const SECOND: nat := 1_000_000_000

  /** The nearest whole number, ties going to the even one: how a duration is made from fractional seconds. */
  function Nearest(x: real): (n: nat)
    requires x >= 0.0
  {
    var down := x.Floor;
    var rest := x - down as real;
    if rest < 0.5 || (rest == 0.5 && down % 2 == 0) then down else down + 1
  }

  /** The gap that paces a kind at a rate; a rate of zero or less turns pacing off. */
  function Interval(requestsPerSecond: real): nat {
    if requestsPerSecond > 0.0 then Nearest(SECOND as real / requestsPerSecond) else 0
  }

  /** The interval is the whole number of nanoseconds nearest a second over the rate, an even one between two; a rate
      of zero, or below, has none. */
  lemma {:induction false} IntervalIsNearest(requestsPerSecond: real)
    ensures requestsPerSecond <= 0.0 ==> Interval(requestsPerSecond) == 0
    ensures requestsPerSecond > 0.0 ==>
      var exact, n := 1000000000.0 / requestsPerSecond, Interval(requestsPerSecond);
      exact - 0.5 <= n as real <= exact + 0.5
      && (n as real == exact - 0.5 || n as real == exact + 0.5 ==> n % 2 == 0)
  {
    if requestsPerSecond > 0.0 {
      NearestIs(1000000000.0 / requestsPerSecond);
    }
  }

  lemma {:induction false} NearestIs(x: real)
    requires x >= 0.0
    ensures x - 0.5 <= Nearest(x) as real <= x + 0.5
    ensures Nearest(x) as real == x - 0.5 || Nearest(x) as real == x + 0.5 ==> Nearest(x) % 2 == 0
  {
  }

  function Max(a: int, b: int): int {
    if a < b then b else a
  }

  /** The slot a request of one kind gets when the kind's next free slot is known, or is its first. */
  function Slot(next: map<Text, int>, kind: Text, now: int): int {
    if kind in next then Max(now, next[kind]) else now
  }

  class RateLimit {
    const interval: nat
    var nextTimes: map<Text, int>

    constructor (requestsPerSecond: real)
      ensures interval == Interval(requestsPerSecond) && nextTimes == map[]
    {
      interval := Interval(requestsPerSecond);
      nextTimes := map[];
    }

    /** Reserve the kind's next slot at or after `now`, and say how long to wait for it. */
    method Delay(kind: Text, now: int) returns (wait: nat)
      modifies this
      ensures now + wait == Slot(old(nextTimes), kind, now)
      ensures nextTimes == old(nextTimes)[kind := now + wait + interval]
    {
      if kind !in nextTimes {
        nextTimes := nextTimes[kind := now];
      }
      var start := Max(now, nextTimes[kind]);
      nextTimes := nextTimes[kind := start + interval];
      wait := if start > now then start - now else 0;
    }

    /** Pace a whole run of requests. */
    method Pace(requests: seq<Request>) returns (waits: seq<nat>)
      requires nextTimes == map[]
      modifies this
      ensures nextTimes == After(interval, requests)
      ensures |waits| == |requests|
      ensures forall k :: 0 <= k < |waits| ==> requests[k].now + waits[k] == SlotOf(interval, requests, k)
    {
      waits := [];
      for k := 0 to |requests|
        invariant nextTimes == After(interval, requests[..k])
        invariant |waits| == k
        invariant forall j :: 0 <= j < k ==> requests[j].now + waits[j] == SlotOf(interval, requests, j)
      {
        Prefix(requests, k);
        var wait := Delay(requests[k].kind, requests[k].now);
        waits := waits + [wait];
      }
      WholePrefix(requests);
    }
  }

  // ----- whole runs -----

  datatype Request = Request(kind: Text, now: int)

  /** The next-slot times after a run. */
  function After(interval: nat, requests: seq<Request>): map<Text, int> {
    if requests == [] then map[]
    else
      var before, r := After(interval, requests[..|requests| - 1]), requests[|requests| - 1];
      before[r.kind := Slot(before, r.kind, r.now) + interval]
  }

  /** The slot of the `k`-th request of a run. */
  function SlotOf(interval: nat, requests: seq<Request>, k: nat): int
    requires k < |requests|
  {
    Slot(After(interval, requests[..k]), requests[k].kind, requests[k].now)
  }

  /** The slots one kind gets in a run, in order. */
  function Slots(interval: nat, requests: seq<Request>, kind: Text): seq<int> {
    if requests == [] then []
    else
      var front, r := requests[..|requests| - 1], requests[|requests| - 1];
      if r.kind == kind
      then Slots(interval, front, kind) + [Slot(After(interval, front), kind, r.now)]
      else Slots(interval, front, kind)
  }

  /** When one kind's requests arrive. */
  function Arrivals(requests: seq<Request>, kind: Text): seq<int> {
    if requests == [] then []
    else
      var front, r := requests[..|requests| - 1], requests[|requests| - 1];
      if r.kind == kind then Arrivals(front, kind) + [r.now] else Arrivals(front, kind)
  }

  /** A run with the other kinds left out. */
  function Only(requests: seq<Request>, kind: Text): seq<Request> {
    if requests == [] then []
    else
      var front, r := requests[..|requests| - 1], requests[|requests| - 1];
      if r.kind == kind then Only(front, kind) + [r] else Only(front, kind)
  }

  /** What the limiter knows of a kind is the slot after the kind's last one. */
  lemma {:induction false} NextFollowsLast(interval: nat, requests: seq<Request>, kind: Text)
    ensures |Slots(interval, requests, kind)| == |Arrivals(requests, kind)|
    ensures kind in After(interval, requests) <==> Slots(interval, requests, kind) != []
    ensures
      var slots := Slots(interval, requests, kind);
      slots != [] ==> After(interval, requests)[kind] == slots[|slots| - 1] + interval
  {
    if requests != [] {
      NextFollowsLast(interval, requests[..|requests| - 1], kind);
    }
  }

  /** A mixed run projected on one kind is that kind run alone: kinds never delay each other. */
  lemma {:induction false} KindsAreIndependent(interval: nat, requests: seq<Request>, kind: Text)
    ensures Slots(interval, requests, kind) == Slots(interval, Only(requests, kind), kind)
    ensures Arrivals(requests, kind) == Arrivals(Only(requests, kind), kind)
  {
    if requests != [] {
      var front, r := requests[..|requests| - 1], requests[|requests| - 1];
      KindsAreIndependent(interval, front, kind);
      if r.kind == kind {
        var alone := Only(front, kind) + [r];
        assert alone[..|alone| - 1] == Only(front, kind);
        NextFollowsLast(interval, front, kind);
        NextFollowsLast(interval, Only(front, kind), kind);
      }
    }
  }

  // ----- the slots of one kind -----

  /** The slots that follow from the arrivals alone. */
  function Serve(interval: nat, arrivals: seq<int>): (slots: seq<int>)
    ensures |slots| == |arrivals|
  {
    if arrivals == [] then []
    else
      var front, now := Serve(interval, arrivals[..|arrivals| - 1]), arrivals[|arrivals| - 1];
      front + [if front == [] then now else Max(now, front[|front| - 1] + interval)]
  }

  lemma {:induction false} SlotsAreServed(interval: nat, requests: seq<Request>, kind: Text)
    ensures Slots(interval, requests, kind) == Serve(interval, Arrivals(requests, kind))
  {
    if requests != [] {
      var front, r := requests[..|requests| - 1], requests[|requests| - 1];
      SlotsAreServed(interval, front, kind);
      NextFollowsLast(interval, front, kind);
      if r.kind == kind {
        var arrivals := Arrivals(front, kind) + [r.now];
        assert arrivals[..|arrivals| - 1] == Arrivals(front, kind);
      }
    }
  }

  lemma {:induction false} ServePrefix(interval: nat, arrivals: seq<int>, k: nat)
    requires k <= |arrivals|
    ensures Serve(interval, arrivals[..k]) == Serve(interval, arrivals)[..k]
  {
    if k == |arrivals| {
      WholePrefix(arrivals);
      WholePrefix(Serve(interval, arrivals));
    } else {
      var front := arrivals[..|arrivals| - 1];
      ServePrefix(interval, front, k);
      assert front[..k] == arrivals[..k];
      assert Serve(interval, arrivals)[..k] == Serve(interval, front)[..k];
    }
  }

  /** One slot from the one before. */
  lemma {:induction false} NextSlot(interval: nat, arrivals: seq<int>, k: nat)
    requires k < |arrivals|
    ensures Serve(interval, arrivals)[k] ==
            if k == 0 then arrivals[0] else Max(arrivals[k], Serve(interval, arrivals)[k - 1] + interval)
  {
    ServePrefix(interval, arrivals, k + 1);
    var upto := arrivals[..k + 1];
    assert upto[..k] == arrivals[..k];
    ServePrefix(interval, arrivals, k);
    assert Serve(interval, upto)[k] == Serve(interval, arrivals)[k];
  }

  predicate AtLeastAll(interval: nat, arrivals: seq<int>, k: nat, slot: int)
    requires k < |arrivals|
  {
    forall j :: 0 <= j <= k ==> arrivals[j] + (k - j) * interval <= slot
  }

  predicate Attains(interval: nat, arrivals: seq<int>, k: nat, slot: int)
    requires k < |arrivals|
  {
    exists j :: 0 <= j <= k && slot == arrivals[j] + (k - j) * interval
  }

  lemma {:induction false} OneMoreGap(n: int, interval: nat)
    ensures (n + 1) * interval == n * interval + interval
  {
  }

  /** The closed form of a run: the `k`-th slot is the greatest `arrival + gaps since`, over the arrivals so far. */
  lemma {:induction false} SlotIsMaximum(interval: nat, arrivals: seq<int>, k: nat)
    requires k < |arrivals|
    ensures AtLeastAll(interval, arrivals, k, Serve(interval, arrivals)[k])
    ensures Attains(interval, arrivals, k, Serve(interval, arrivals)[k])
  {
    NextSlot(interval, arrivals, k);
    var slot := Serve(interval, arrivals)[k];
    if k == 0 {
      assert slot == arrivals[0] + (0 - 0) * interval;
    } else {
      var before := Serve(interval, arrivals)[k - 1];
      SlotIsMaximum(interval, arrivals, k - 1);
      forall j | 0 <= j <= k ensures arrivals[j] + (k - j) * interval <= slot {
        if j < k {
          assert arrivals[j] + (k - 1 - j) * interval <= before;
          OneMoreGap(k - 1 - j, interval);
        }
      }
      if slot == arrivals[k] {
        assert slot == arrivals[k] + (k - k) * interval;
      } else {
        var j :| 0 <= j <= k - 1 && before == arrivals[j] + (k - 1 - j) * interval;
        OneMoreGap(k - 1 - j, interval);
        assert slot == arrivals[j] + (k - j) * interval;
      }
    }
  }

  /** Slots are at least one interval apart, all along a run. */
  lemma {:induction false} SlotsAreSpaced(interval: nat, arrivals: seq<int>, a: nat, b: nat)
    requires a <= b < |arrivals|
    ensures Serve(interval, arrivals)[b] >= Serve(interval, arrivals)[a] + (b - a) * interval
    decreases b - a
  {
    if a < b {
      SlotsAreSpaced(interval, arrivals, a, b - 1);
      NextSlot(interval, arrivals, b);
      OneMoreGap(b - 1 - a, interval);
    }
  }

  /** A schedule nobody could complain about: nothing before it arrives, and the gap between neighbours. */
  predicate Obeys(interval: nat, arrivals: seq<int>, times: seq<int>) {
    && |times| == |arrivals|
    && (forall k :: 0 <= k < |times| ==> arrivals[k] <= times[k])
    && (forall k :: 0 < k < |times| ==> times[k - 1] + interval <= times[k])
  }

  /** The pacing is greedy and best: it is such a schedule, and no other serves any record earlier. */
  lemma {:induction false} PacingIsOptimal(interval: nat, arrivals: seq<int>, times: seq<int>)
    ensures Obeys(interval, arrivals, Serve(interval, arrivals))
    ensures Obeys(interval, arrivals, times) ==>
      forall k :: 0 <= k < |times| ==> Serve(interval, arrivals)[k] <= times[k]
  {
    forall k | 0 <= k < |arrivals|
      ensures arrivals[k] <= Serve(interval, arrivals)[k]
      ensures k > 0 ==> Serve(interval, arrivals)[k - 1] + interval <= Serve(interval, arrivals)[k]
    {
      NextSlot(interval, arrivals, k);
    }
    if Obeys(interval, arrivals, times) {
      for k := 0 to |times|
        invariant forall j :: 0 <= j < k ==> Serve(interval, arrivals)[j] <= times[j]
      {
        NextSlot(interval, arrivals, k);
      }
    }
  }

  // ----- how many slots a window holds -----

  function InWindow(slots: seq<int>, from: int, length: nat): set<nat> {
    set k: nat | k < |slots| && from <= slots[k] < from + length
  }

  function Numbers(first: nat, n: nat): (s: set<nat>)
    ensures |s| == n
    ensures forall k :: k in s <==> first <= k < first + n
  {
    if n == 0 then {} else Numbers(first, n - 1) + {first + n - 1}
  }

  lemma {:induction false} Subset(s: set<nat>, all: set<nat>)
    requires s <= all
    ensures |s| <= |all|
  {
    assert all == s + (all - s);
    assert |all| == |s| + |all - s|;
  }

  lemma {:induction false} SmallestIndex(s: set<nat>) returns (first: nat)
    requires s != {}
    ensures first in s && forall k :: k in s ==> first <= k
    decreases |s|
  {
    var z :| z in s;
    if s == {z} {
      first := z;
      return;
    }
    var least := SmallestIndex(s - {z});
    first := if least < z then least else z;
    assert forall k :: k in s ==> k == z || k in s - {z};
  }

  lemma {:induction false} LessOfProduct(a: int, n: int, interval: nat)
    requires a * interval < n * interval
    ensures a < n
  {
  }

  /** Any half-open window of `n` intervals holds at most `n` slots of a kind. */
  lemma {:induction false} WindowHolds(interval: nat, arrivals: seq<int>, from: int, n: nat)
    ensures |InWindow(Serve(interval, arrivals), from, n * interval)| <= n
  {
    var slots := Serve(interval, arrivals);
    var inside := InWindow(slots, from, n * interval);
    if inside != {} {
      var first := SmallestIndex(inside);
      forall k | k in inside ensures first <= k < first + n {
        SlotsAreSpaced(interval, arrivals, first, k);
        assert slots[first] + (k - first) * interval < slots[first] + n * interval;
        LessOfProduct(k - first, n, interval);
      }
      Subset(inside, Numbers(first, n));
    }
  }

  ghost predicate AtMost(slots: seq<int>, limit: nat) {
    forall from :: |InWindow(slots, from, 1_000_000_000)| <= limit
  }

  /** Whether every run of a kind keeps to `limit` slots a second. */
  ghost predicate AlwaysAtMost(interval: nat, limit: nat) {
    forall arrivals :: AtMost(Serve(interval, arrivals), limit)
  }

  lemma {:induction false} WindowGrows(slots: seq<int>, from: int, length: nat, longer: nat)
    requires length <= longer
    ensures |InWindow(slots, from, length)| <= |InWindow(slots, from, longer)|
  {
    Subset(InWindow(slots, from, length), InWindow(slots, from, longer));
  }

  /** A burst: `n` requests at the same instant. */
  function Burst(n: nat): seq<int> {
    seq(n, _ => 0)
  }

  lemma {:induction false} BurstFills(interval: nat, n: nat, k: nat)
    requires k < n
    ensures Serve(interval, Burst(n))[k] == k * interval
  {
    NextSlot(interval, Burst(n), k);
    if k > 0 {
      BurstFills(interval, n, k - 1);
      OneMoreGap(k - 1, interval);
    }
  }

  lemma {:induction false} ProductUpTo(k: nat, n: nat, interval: nat)
    requires k <= n
    ensures 0 <= k * interval <= n * interval
  {
  }

  /** The promise is at most so many records a second. Whatever the rate, whole or not, every run of a kind keeps to a
      limit exactly when that many intervals, rounded to whole nanoseconds as they are, reach a second. */
  lemma {:induction false} PerSecondIff(rate: real, limit: nat)
    ensures AlwaysAtMost(Interval(rate), limit) <==> limit * Interval(rate) >= 1_000_000_000
  {
    var interval := Interval(rate);
    if limit * interval >= SECOND {
      forall arrivals, from ensures |InWindow(Serve(interval, arrivals), from, SECOND)| <= limit {
        WindowHolds(interval, arrivals, from, limit);
        WindowGrows(Serve(interval, arrivals), from, SECOND, limit * interval);
      }
    } else {
      var slots := Serve(interval, Burst(limit + 1));
      forall k | 0 <= k <= limit ensures 0 <= slots[k] < SECOND {
        BurstFills(interval, limit + 1, k);
        ProductUpTo(k, limit, interval);
      }
      assert InWindow(slots, 0, SECOND) == Numbers(0, limit + 1);
      assert !AtMost(slots, limit);
    }
  }

  /** Three a second rounds down to 333333333 nanoseconds, which lets a fourth slot into a second. */
  lemma {:induction false} ThreeASecondSlips()
    ensures Interval(3.0) == 333_333_333 && !AlwaysAtMost(Interval(3.0), 3)
  {
    assert 333_333_333.0 < SECOND as real / 3.0 < 333_333_333.5;
    assert (SECOND as real / 3.0).Floor == 333_333_333;
    PerSecondIff(3.0, 3);
  }

  lemma {:induction false} WholeQuotient(rate: nat)
    requires rate > 0 && SECOND % rate == 0
    ensures rate * (SECOND / rate) == SECOND
    ensures SECOND as real / rate as real == (SECOND / rate) as real
  {
    var whole := SECOND / rate;
    assert rate * whole == SECOND;
    assert rate as real * whole as real == SECOND as real;
  }

  lemma {:induction false} NearestExact(n: nat)
    ensures Nearest(n as real) == n
  {
  }

  /** A rate that divides a second keeps its promise. */
  lemma {:induction false} ExactRatesHold(rate: nat)
    requires rate > 0 && SECOND % rate == 0
    ensures AlwaysAtMost(Interval(rate as real), rate)
  {
    WholeQuotient(rate);
    NearestExact(SECOND / rate);
    PerSecondIff(rate as real, rate);
  }

  /** The default of 15 a second rounds up, and keeps it too. */
  lemma {:induction false} DefaultRateHolds()
    ensures AlwaysAtMost(Interval(15.0), 15)
  {
    assert 66_666_666.5 < SECOND as real / 15.0 < 66_666_667.0;
    assert (SECOND as real / 15.0).Floor == 66_666_666;
    PerSecondIff(15.0, 15);
  }

  /** Turned off, pacing never makes a record wait: under a clock that does not run backwards each slot is the arrival
      itself. */
  lemma {:induction false} OffNeverWaits(arrivals: seq<int>)
    requires forall a, b :: 0 <= a < b < |arrivals| ==> arrivals[a] <= arrivals[b]
    ensures Serve(Interval(0.0), arrivals) == arrivals
  {
    var slots := Serve(0, arrivals);
    for k := 0 to |arrivals|
      invariant forall j :: 0 <= j < k ==> slots[j] == arrivals[j]
    {
      NextSlot(0, arrivals, k);
    }
    assert slots == arrivals;
  }
}
