/** The in-memory fixed-window rate limiter of both serverless handlers:
    ten requests per client key per 60000 ms, kept in a `Map` that is swept of
    stale entries on every check. */
module RateLimit {

  const WINDOW_MS: int := 60000
  const MAX_REQUESTS: int := 10

  /** A window: how many requests it has seen and when it opened. */
  datatype Entry = Entry(count: int, resetTime: int)

  /** What a check answers: whether the request may proceed and how many remain. */
  datatype Decision = Decision(allowed: bool, remaining: int)

  /** An entry the sweep at `now` keeps: it is not more than a window old. */
  predicate Live(e: Entry, now: int) {
    !(now - e.resetTime > WINDOW_MS)
  }

  /** The store after a sweep at `now`: the live entries, unchanged. */
  function Sweep(store: map<string, Entry>, now: int): (swept: map<string, Entry>)
    ensures forall k :: k in swept ==> k in store && swept[k] == store[k] && now - swept[k].resetTime <= WINDOW_MS
    ensures forall k :: k in store && now - store[k].resetTime <= WINDOW_MS ==> k in swept
  {
    map k | k in store && Live(store[k], now) :: store[k]
  }

  /** What one check does to a store that has already been swept, with the
      clock read again as `now`: the decision and the new store. */
  function Step(store: map<string, Entry>, key: string, now: int): (Decision, map<string, Entry>) {
    if key !in store || now - store[key].resetTime > WINDOW_MS then
      (Decision(true, MAX_REQUESTS - 1), store[key := Entry(1, now)])
    else if store[key].count >= MAX_REQUESTS then
      (Decision(false, 0), store)
    else
      var e := store[key];
      (Decision(true, MAX_REQUESTS - (e.count + 1)), store[key := Entry(e.count + 1, e.resetTime)])
  }

  /** A full check: sweep with the first clock reading, then decide with the second. */
  function Check(store: map<string, Entry>, key: string, sweepNow: int, now: int): (r: (Decision, map<string, Entry>))
    ensures var swept := Sweep(store, sweepNow);
      (r.0.allowed <==> (key !in swept || now - swept[key].resetTime > WINDOW_MS
                         || swept[key].count < MAX_REQUESTS))
      && (r.0.allowed ==> key in r.1 && r.0.remaining == MAX_REQUESTS - r.1[key].count)
      && (!r.0.allowed ==> r.0.remaining == 0 && r.1 == swept)
      && (forall k :: k != key ==> (k in r.1 <==> k in swept))
      && (forall k :: k != key && k in r.1 ==> r.1[k] == swept[k])
  {
    Step(Sweep(store, sweepNow), key, now)
  }

  /** Every window has seen between one and ten requests. */
  predicate CountsInRange(store: map<string, Entry>) {
    forall k :: k in store ==> 1 <= store[k].count <= MAX_REQUESTS
  }

  /** The sweep deletes exactly the entries more than a window old and touches no other. */
  lemma SweepExact(store: map<string, Entry>, now: int, k: string)
    ensures k in Sweep(store, now) <==> k in store && now - store[k].resetTime <= WINDOW_MS
    ensures k in Sweep(store, now) ==> Sweep(store, now)[k] == store[k]
  {
  }

  /** A first request, or the first after the window elapsed, opens a new window
      of one request and leaves nine. */
  lemma FirstInWindow(store: map<string, Entry>, key: string, now: int)
    requires key !in store || now - store[key].resetTime > WINDOW_MS
    ensures Step(store, key, now).0 == Decision(true, 9)
    ensures Step(store, key, now).1 == store[key := Entry(1, now)]
  {
  }

  /** Inside a window: a full window denies with nothing remaining and keeps the
      store; otherwise the count grows by exactly one and `remaining` is what is left. */
  lemma WithinWindow(store: map<string, Entry>, key: string, now: int)
    requires key in store && now - store[key].resetTime <= WINDOW_MS
    ensures var (d, s) := Step(store, key, now);
      (store[key].count >= 10 ==> d == Decision(false, 0) && s == store)
      && (store[key].count < 10 ==>
            d.allowed && s == store[key := store[key].(count := store[key].count + 1)]
            && d.remaining == 10 - s[key].count)
  {
  }

  /** Checks keep every count between 1 and 10, change only the checked key
      among the swept entries, and report `remaining` in 0..9. */
  lemma CheckKeepsCounts(store: map<string, Entry>, key: string, sweepNow: int, now: int)
    requires CountsInRange(store)
    ensures var (d, s) := Check(store, key, sweepNow, now);
      CountsInRange(s) && 0 <= d.remaining <= 9
      && (d.allowed ==> key in s && d.remaining == MAX_REQUESTS - s[key].count)
      && (forall k :: k != key ==> (k in s <==> k in Sweep(store, sweepNow)))
      && (forall k :: k != key && k in s ==> s[k] == store[k])
  {
  }

  /** With a single clock reading for the sweep and the check, the sweep has
      already removed every expired window, so the reset branch never fires:
      a key that survives the sweep is always inside its window. */
  lemma OneClockNeverResets(store: map<string, Entry>, key: string, now: int)
    requires key in Sweep(store, now)
    ensures !(now - Sweep(store, now)[key].resetTime > WINDOW_MS)
  {
  }

  /** With two readings the reset branch is reachable: a full window that the sweep
      still keeps has expired by the second reading, and the request is allowed afresh. */
  lemma SecondClockResets()
    ensures var store := map["rate_limit_1.2.3.4" := Entry(10, 0)];
      Check(store, "rate_limit_1.2.3.4", 60000, 60001)
        == (Decision(true, 9), map["rate_limit_1.2.3.4" := Entry(1, 60001)])
  {
    var key := "rate_limit_1.2.3.4";
    var store := map[key := Entry(10, 0)];
    assert Sweep(store, 60000) == store;
    assert Step(store, key, 60001).1 == map[key := Entry(1, 60001)];
  }

  /** Replays a burst of checks for one key, each with a single clock reading; returns
      the decisions in order. */
  function Burst(store: map<string, Entry>, key: string, times: seq<int>): (seq<Decision>, map<string, Entry>)
    decreases |times|
  {
    if times == [] then ([], store)
    else
      var (d, s) := Check(store, key, times[0], times[0]);
      var (ds, s') := Burst(s, key, times[1..]);
      ([d] + ds, s')
  }

  /** Inside one window a key that has seen `n` requests answers the next ones with
      9 - n, 8 - n, ... down to 0 and then denies: the eleventh request is refused. */
  lemma {:induction false} BurstWithinWindow(store: map<string, Entry>, key: string, t0: int, times: seq<int>, n: nat)
    requires 1 <= n <= 10
    requires key in store && store[key] == Entry(n, t0)
    requires forall i :: 0 <= i < |times| ==> t0 <= times[i] <= t0 + WINDOW_MS
    ensures var (ds, s) := Burst(store, key, times);
      |ds| == |times|
      && (forall i :: 0 <= i < |times| ==>
            ds[i] == if n + i < 10 then Decision(true, 9 - n - i) else Decision(false, 0))
      && key in s && s[key] == Entry(if n + |times| < 10 then n + |times| else 10, t0)
    decreases |times|
  {
    if times != [] {
      var (d, s) := Check(store, key, times[0], times[0]);
      assert key in Sweep(store, times[0]);
      var m := if n < 10 then n + 1 else 10;
      assert s[key] == Entry(m, t0);
      BurstWithinWindow(s, key, t0, times[1..], m);
      var (ds, s') := Burst(s, key, times[1..]);
      assert Burst(store, key, times) == ([d] + ds, s');
    }
  }

  /** A fresh key accepts ten requests in one window, leaving 9, 8, ..., 0, and
      refuses the eleventh with nothing remaining. */
  lemma EleventhRequestRefused(store: map<string, Entry>, key: string, times: seq<int>)
    requires |times| == 11 && key !in Sweep(store, times[0])
    requires forall i :: 0 <= i < |times| ==> times[0] <= times[i] <= times[0] + WINDOW_MS
    ensures var (ds, _) := Burst(store, key, times);
      |ds| == 11 && (forall i :: 0 <= i < 10 ==> ds[i] == Decision(true, 9 - i))
      && ds[10] == Decision(false, 0)
  {
    var (d, s) := Check(store, key, times[0], times[0]);
    assert d == Decision(true, 9) && s[key] == Entry(1, times[0]);
    BurstWithinWindow(s, key, times[0], times[1..], 1);
  }

  /** The store of one handler. Each handler module owns its own instance with
      its own key prefix; the two never share entries. */
  class Limiter {
    const prefix: string
    var store: map<string, Entry>

    constructor (prefix: string)
      ensures this.prefix == prefix && store == map[]
    {
      this.prefix := prefix;
      store := map[];
    }

    /** `cleanupRateLimit`: walks the entries and deletes each one more than a
        window old at `now`. */
    method Cleanup(now: int)
      modifies this
      ensures store == Sweep(old(store), now)
    {
      var pending := store.Keys;
      while pending != {}
        invariant pending <= old(store).Keys
        invariant store == map k | k in old(store) && (k in pending || Live(old(store)[k], now)) :: old(store)[k]
        decreases pending
      {
        var k :| k in pending;
        if now - store[k].resetTime > WINDOW_MS {
          store := map j | j in store && j != k :: store[j];
        }
        pending := pending - {k};
      }
    }

    /** `checkRateLimit(ip)`: sweeps with one clock reading, then decides for the
        key `prefix + ip` with a second reading. */
    method CheckRequest(ip: string, sweepNow: int, now: int) returns (d: Decision)
      modifies this
      ensures (d, store) == Check(old(store), prefix + ip, sweepNow, now)
    {
      Cleanup(sweepNow);
      var key := prefix + ip;
      if key !in store {
        store := store[key := Entry(1, now)];
        return Decision(true, 9);
      }
      var limit := store[key];
      if now - limit.resetTime > WINDOW_MS {
        store := store[key := Entry(1, now)];
        return Decision(true, 9);
      }
      if limit.count >= MAX_REQUESTS {
        return Decision(false, 0);
      }
      store := store[key := limit.(count := limit.count + 1)];
      d := Decision(true, MAX_REQUESTS - store[key].count);
    }
  }
}
