/** The sliding-window limiter: its pruned deque decides exactly as the full history would,
    and the full history obeys a rate bound over intervals of every length. */
module RateLimit {
  import opened Collections

  datatype Request = Request(key: string, now: real)

  // --------------------------------------------------------- full history

  /** The clock never runs backwards. */
  ghost predicate Ordered(rs: seq<Request>) {
    forall i, j :: 0 <= i < j < |rs| ==> rs[i].now <= rs[j].now
  }

  /** The hits of `h` that are at most `window` old. */
  function Recent(h: seq<real>, now: real, window: real): seq<real> {
    Filter(h, NoOlderThan(now, window))
  }

  function NoOlderThan(now: real, window: real): real -> bool {
    t => now - t <= window
  }

  /** When the requests for `key` were admitted, looking at the whole history each time. */
  function Admissions(limit: int, window: real, rs: seq<Request>, key: string): seq<real> {
    if rs == [] then []
    else
      var h := Admissions(limit, window, rs[..|rs| - 1], key);
      var r := rs[|rs| - 1];
      if r.key == key && |Recent(h, r.now, window)| < limit then h + [r.now] else h
  }

  predicate Admits(limit: int, window: real, rs: seq<Request>, r: Request) {
    |Recent(Admissions(limit, window, rs, r.key), r.now, window)| < limit
  }

  ghost predicate Ascending(h: seq<real>) {
    forall i, j :: 0 <= i < j < |h| ==> h[i] <= h[j]
  }

  lemma {:induction false} AdmissionsAscend(limit: int, window: real, rs: seq<Request>, key: string)
    requires Ordered(rs)
    ensures Ascending(Admissions(limit, window, rs, key))
    ensures forall t | t in Admissions(limit, window, rs, key) :: rs != [] && t <= rs[|rs| - 1].now
  {
    if rs != [] {
      AdmissionsAscend(limit, window, rs[..|rs| - 1], key);
      var h := Admissions(limit, window, rs[..|rs| - 1], key);
      assert forall i :: 0 <= i < |h| ==> h[i] in h;
    }
  }

  // ------------------------------------------------------------- the deque

  /** What popping old hits from the left leaves. */
  function Evict(h: seq<real>, now: real, window: real): seq<real> {
    if h != [] && now - h[0] > window then Evict(h[1..], now, window) else h
  }

  /** On an ascending deque, popping from the left removes exactly the hits outside the window. */
  lemma {:induction false} EvictIsRecent(h: seq<real>, now: real, window: real)
    requires Ascending(h)
    ensures Evict(h, now, window) == Recent(h, now, window)
  {
    if h != [] {
      if now - h[0] > window {
        EvictIsRecent(h[1..], now, window);
      } else {
        FilterAll(h, NoOlderThan(now, window));
      }
    }
  }

  /** Hits evicted earlier stay outside the window, so forgetting them changes nothing. */
  lemma RecentSuffix(h: seq<real>, n: nat, now: real, window: real)
    requires n <= |h| && forall i :: 0 <= i < n ==> now - h[i] > window
    ensures Recent(h, now, window) == Recent(h[n..], now, window)
  {
    assert h == h[..n] + h[n..];
    FilterConcat(h[..n], h[n..], NoOlderThan(now, window));
    FilterNone(h[..n], NoOlderThan(now, window));
  }

  /** On an ascending history the recent part is at the end, and all before it is too old. */
  lemma {:induction false} RecentIsSuffix(h: seq<real>, now: real, window: real)
    requires Ascending(h)
    ensures var d := Recent(h, now, window);
      && |d| <= |h| && d == h[|h| - |d|..]
      && forall i :: 0 <= i < |h| - |d| ==> now - h[i] > window
  {
    if h != [] {
      if now - h[0] > window {
        RecentIsSuffix(h[1..], now, window);
        var d := Recent(h, now, window);
        assert h[|h| - |d|..] == h[1..][|h[1..]| - |d|..];
        forall i | 0 <= i < |h| - |d| ensures now - h[i] > window {
          if i > 0 {
            assert h[i] == h[1..][i - 1];
          }
        }
      } else {
        FilterAll(h, NoOlderThan(now, window));
      }
    }
  }

  // ------------------------------------------------- deque against history

  ghost function Clock(rs: seq<Request>): real {
    if rs == [] then 0.0 else rs[|rs| - 1].now
  }

  /** The deque `d` is the history `h` without a part that is too old to matter again. */
  ghost predicate Tracks(h: seq<real>, d: seq<real>, clock: real, window: real) {
    && |d| <= |h|
    && d == h[|h| - |d|..]
    && (forall i :: 0 <= i < |h| - |d| ==> clock - h[i] > window)
  }

  lemma TracksThroughEviction(h: seq<real>, d: seq<real>, clock: real, now: real, window: real)
    requires Ascending(h) && Tracks(h, d, clock, window) && (h == [] || clock <= now)
    ensures Evict(d, now, window) == Recent(h, now, window)
    ensures Tracks(h, Recent(h, now, window), now, window)
  {
    EvictIsRecent(d, now, window);
    RecentSuffix(h, |h| - |d|, now, window);
    RecentIsSuffix(h, now, window);
  }

  lemma AdmissionsStep(limit: int, window: real, rs: seq<Request>, r: Request, key: string)
    ensures Admissions(limit, window, rs + [r], key)
         == Admissions(limit, window, rs, key)
            + if r.key == key && Admits(limit, window, rs, r) then [r.now] else []
  {
    assert (rs + [r])[..|rs|] == rs;
  }

  // ----------------------------------------------------------- serving a key

  /** The deque of a key, and the times at which its requests were admitted. */
  datatype Served = Served(deque: seq<real>, admitted: seq<real>)

  function Serve(limit: int, window: real, s: Served, now: real): Served {
    var d := Evict(s.deque, now, window);
    if |d| < limit then Served(d + [now], s.admitted + [now]) else Served(d, s.admitted)
  }

  /** What the program does, whatever times the requests carry. */
  function Serving(limit: int, window: real, rs: seq<Request>, key: string): Served {
    if rs == [] then Served([], [])
    else
      var s, r := Serving(limit, window, rs[..|rs| - 1], key), rs[|rs| - 1];
      if r.key == key then Serve(limit, window, s, r.now) else s
  }

  lemma ServingStep(limit: int, window: real, rs: seq<Request>, r: Request, key: string)
    ensures Serving(limit, window, rs + [r], key)
         == var s := Serving(limit, window, rs, key); if r.key == key then Serve(limit, window, s, r.now) else s
  {
    assert (rs + [r])[..|rs|] == rs;
  }

  lemma TracksAppended(h: seq<real>, d: seq<real>, now: real, window: real)
    requires Tracks(h, d, now, window)
    ensures Tracks(h + [now], d + [now], now, window)
  {
    var h1, d1 := h + [now], d + [now];
    assert h1[|h1| - |d1|..] == h[|h| - |d|..] + [now];
  }

  lemma TracksLater(h: seq<real>, d: seq<real>, clock: real, now: real, window: real)
    requires Tracks(h, d, clock, window) && (h == [] || clock <= now)
    ensures Tracks(h, d, now, window)
  {
  }

  /** The key of the request: evict, then append the hit if admitted. */
  lemma TracksSameKey(limit: int, window: real, rs: seq<Request>, r: Request, d: seq<real>)
    requires Ordered(rs) && (rs == [] || Clock(rs) <= r.now)
    requires Tracks(Admissions(limit, window, rs, r.key), d, Clock(rs), window)
    ensures Tracks(Admissions(limit, window, rs + [r], r.key),
                   Recent(Admissions(limit, window, rs, r.key), r.now, window)
                   + (if Admits(limit, window, rs, r) then [r.now] else []), r.now, window)
  {
    var h := Admissions(limit, window, rs, r.key);
    AdmissionsAscend(limit, window, rs, r.key);
    AdmissionsStep(limit, window, rs, r, r.key);
    TracksThroughEviction(h, d, Clock(rs), r.now, window);
    TracksAppended(h, Recent(h, r.now, window), r.now, window);
  }

  ghost predicate Exact(limit: int, window: real, rs: seq<Request>, key: string) {
    var s, h := Serving(limit, window, rs, key), Admissions(limit, window, rs, key);
    s.admitted == h && Tracks(h, s.deque, Clock(rs), window)
  }

  lemma ServeIs(limit: int, window: real, s: Served, now: real)
    ensures var d := Evict(s.deque, now, window);
      var hit := if |d| < limit then [now] else [];
      Serve(limit, window, s, now) == Served(d + hit, s.admitted + hit)
  {
    var d := Evict(s.deque, now, window);
    assert d + [] == d && s.admitted + [] == s.admitted;
  }

  lemma ExactSameKey(limit: int, window: real, rs: seq<Request>, r: Request)
    requires Ordered(rs) && (rs == [] || Clock(rs) <= r.now) && Exact(limit, window, rs, r.key)
    ensures Exact(limit, window, rs + [r], r.key)
  {
    var s, h := Serving(limit, window, rs, r.key), Admissions(limit, window, rs, r.key);
    AdmissionsAscend(limit, window, rs, r.key);
    TracksThroughEviction(h, s.deque, Clock(rs), r.now, window);
    TracksSameKey(limit, window, rs, r, s.deque);
    AdmissionsStep(limit, window, rs, r, r.key);
    ServingStep(limit, window, rs, r, r.key);
    ServeIs(limit, window, s, r.now);
  }

  lemma ExactOtherKey(limit: int, window: real, rs: seq<Request>, r: Request, key: string)
    requires (rs == [] || Clock(rs) <= r.now) && Exact(limit, window, rs, key) && key != r.key
    ensures Exact(limit, window, rs + [r], key)
  {
    var s, h := Serving(limit, window, rs, key), Admissions(limit, window, rs, key);
    TracksLater(h, s.deque, Clock(rs), r.now, window);
    AdmissionsStep(limit, window, rs, r, key);
    assert h + [] == h;
    ServingStep(limit, window, rs, r, key);
  }

  /** The deque forgets nothing that matters: with a clock that never runs backwards the program
      admits exactly what the full history calls for. */
  lemma {:induction false} ServingIsExact(limit: int, window: real, rs: seq<Request>, key: string)
    requires Ordered(rs)
    ensures Serving(limit, window, rs, key).admitted == Admissions(limit, window, rs, key)
    ensures Exact(limit, window, rs, key)
  {
    if rs != [] {
      var before, r := rs[..|rs| - 1], rs[|rs| - 1];
      assert rs == before + [r];
      OrderedInit(before, r);
      ServingIsExact(limit, window, before, key);
      if r.key == key {
        ExactSameKey(limit, window, before, r);
      } else {
        ExactOtherKey(limit, window, before, r, key);
      }
    }
  }

  lemma {:induction false} EvictShape(h: seq<real>, now: real, window: real)
    ensures var d := Evict(h, now, window);
      |d| <= |h| && (Ascending(h) ==> Ascending(d)) && (forall t | t in d :: t in h)
  {
    if h != [] && now - h[0] > window {
      EvictShape(h[1..], now, window);
    }
  }

  /** The deque is never longer than the limit, and stays sorted while the clock is ordered. */
  lemma {:induction false} DequeShape(limit: int, window: real, rs: seq<Request>, key: string)
    ensures |Serving(limit, window, rs, key).deque| <= Max(0, limit)
    ensures Ordered(rs) ==> Ascending(Serving(limit, window, rs, key).deque)
    ensures Ordered(rs) ==> forall t | t in Serving(limit, window, rs, key).deque :: t <= Clock(rs)
  {
    if rs != [] {
      var before, r := rs[..|rs| - 1], rs[|rs| - 1];
      var d := Serving(limit, window, before, key).deque;
      DequeShape(limit, window, before, key);
      EvictShape(d, r.now, window);
      var e := Evict(d, r.now, window);
      assert forall i :: 0 <= i < |e| ==> e[i] in e;
      if Ordered(rs) {
        assert rs == before + [r];
        OrderedInit(before, r);
      }
    }
  }

  /** Popping the old hits off the deque leaves what the history has inside the window. */
  lemma DequeIsRecent(limit: int, window: real, rs: seq<Request>, r: Request)
    requires Ordered(rs + [r])
    ensures Evict(Serving(limit, window, rs, r.key).deque, r.now, window)
         == Recent(Admissions(limit, window, rs, r.key), r.now, window)
  {
    var h, d := Admissions(limit, window, rs, r.key), Serving(limit, window, rs, r.key).deque;
    OrderedInit(rs, r);
    ServingIsExact(limit, window, rs, r.key);
    AdmissionsAscend(limit, window, rs, r.key);
    TracksThroughEviction(h, d, Clock(rs), r.now, window);
  }

  lemma OrderedInit(rs: seq<Request>, r: Request)
    requires Ordered(rs + [r])
    ensures Ordered(rs) && (rs == [] || Clock(rs) <= r.now)
  {
    assert forall i :: 0 <= i < |rs| ==> (rs + [r])[i] == rs[i];
    assert (rs + [r])[|rs|] == r;
  }

  // --------------------------------------------------------------- the class

  function Deque(hits: map<string, seq<real>>, key: string): seq<real> {
    if key in hits then hits[key] else []
  }

  ghost predicate AllServed(limit: int, window: real, rs: seq<Request>, hits: map<string, seq<real>>) {
    forall key :: Deque(hits, key) == Serving(limit, window, rs, key).deque
  }

  class RateLimiter {
    const limit: int
    const window: real
    var hits: map<string, seq<real>>
    /** Every request so far, in the order in which they got the lock. */
    ghost var trace: seq<Request>

    function Hits(key: string): seq<real>
      reads this
    {
      Deque(hits, key)
    }

    ghost predicate Valid()
      reads this
    {
      AllServed(limit, window, trace, hits)
    }

    constructor (limit: int, window: real)
      ensures Valid() && trace == []
      ensures this.limit == limit && this.window == window
    {
      this.limit, this.window := limit, window;
      hits, trace := map[], [];
    }

    /** The loop that pops old hits from the left. */
    method PopExpired(hits: seq<real>, now: real) returns (d: seq<real>)
      ensures d == Evict(hits, now, window)
    {
      d := hits;
      while d != [] && now - d[0] > window
        invariant Evict(d, now, window) == Evict(hits, now, window)
      {
        d := d[1..];
      }
    }

    /** As long as the clock has not run backwards, the decision is the one the full history calls
        for, and the deque ends up holding exactly the admissions still inside the window. */
    method Allow(key: string, now: real) returns (ok: bool)
      requires Valid()
      modifies this
      ensures Valid() && trace == old(trace) + [Request(key, now)]
      ensures hits == old(hits)[key := Serving(limit, window, trace, key).deque]
      ensures Serving(limit, window, trace, key).admitted
           == Serving(limit, window, old(trace), key).admitted + if ok then [now] else []
      ensures Ordered(trace) ==>
        && ok == Admits(limit, window, old(trace), Request(key, now))
        && Hits(key) == Recent(Admissions(limit, window, old(trace), key), now, window) + if ok then [now] else []
    {
      ghost var r := Request(key, now);
      AllServedNext(limit, window, trace, r, hits);
      if Ordered(trace + [r]) {
        DequeIsRecent(limit, window, trace, r);
      }
      assert Hits(key) == Serving(limit, window, trace, key).deque;
      var d := PopExpired(Hits(key), now);
      ok := |d| < limit;
      if ok {
        d := d + [now];
      }
      hits := hits[key := d];
      trace := trace + [r];
    }
  }

  /** Serving a request moves the deque of its key and no other. */
  lemma AllServedNext(limit: int, window: real, rs: seq<Request>, r: Request, hits: map<string, seq<real>>)
    requires AllServed(limit, window, rs, hits)
    ensures AllServed(limit, window, rs + [r], hits[r.key := Serving(limit, window, rs + [r], r.key).deque])
    ensures Serving(limit, window, rs + [r], r.key) == Serve(limit, window, Serving(limit, window, rs, r.key), r.now)
  {
    var next := hits[r.key := Serving(limit, window, rs + [r], r.key).deque];
    forall key ensures Deque(next, key) == Serving(limit, window, rs + [r], key).deque {
      ServingStep(limit, window, rs, r, key);
      assert Deque(hits, key) == Serving(limit, window, rs, key).deque;
    }
    ServingStep(limit, window, rs, r, r.key);
  }

  // ------------------------------------------------------------- rate bounds

  /** How many of the hits lie in the closed interval from `lo` to `hi`. */
  function CountIn(h: seq<real>, lo: real, hi: real): nat {
    |Filter(h, Between(lo, hi))|
  }

  function Between(lo: real, hi: real): real -> bool {
    t => lo <= t <= hi
  }

  /** Any closed interval of length `window` holds at most `limit` admissions of a key. */
  lemma {:induction false} WindowBound(limit: int, window: real, rs: seq<Request>, key: string, lo: real)
    requires Ordered(rs)
    ensures CountIn(Admissions(limit, window, rs, key), lo, lo + window) <= Max(0, limit)
  {
    if rs != [] {
      var before, r := rs[..|rs| - 1], rs[|rs| - 1];
      var h := Admissions(limit, window, before, key);
      WindowBound(limit, window, before, key, lo);
      AdmissionsStep(limit, window, before, r, key);
      assert rs == before + [r];
      FilterConcat(h, [r.now], Between(lo, lo + window));
      if lo <= r.now <= lo + window {
        FilterWeaker(h, Between(lo, lo + window), NoOlderThan(r.now, window));
      }
    }
  }

  /** In an interval of length `n * window` at most `n * limit`. */
  lemma {:induction false} LongRunBound(limit: int, window: real, rs: seq<Request>, key: string, lo: real, n: nat)
    requires Ordered(rs) && n > 0 && 0.0 <= window
    ensures CountIn(Admissions(limit, window, rs, key), lo, lo + n as real * window) <= n * Max(0, limit)
  {
    if n == 1 {
      WindowBound(limit, window, rs, key, lo);
    } else {
      var h := Admissions(limit, window, rs, key);
      var cut := lo + (n - 1) as real * window;
      LongRunBound(limit, window, rs, key, lo, n - 1);
      WindowBound(limit, window, rs, key, cut);
      assert cut + window == lo + n as real * window;
      FilterCover(h, Between(lo, cut), Between(cut, cut + window), Between(lo, cut + window));
    }
  }

  /** For every interval: one plus the whole number of windows in its length, times `limit`. */
  lemma RateBound(limit: int, window: real, rs: seq<Request>, key: string, lo: real, length: real)
    requires Ordered(rs) && 0.0 < window && 0.0 <= length
    ensures CountIn(Admissions(limit, window, rs, key), lo, lo + length)
         <= ((length / window).Floor + 1) * Max(0, limit)
  {
    var n := (length / window).Floor + 1;
    assert length <= n as real * window by {
      assert length / window <= n as real;
      assert length == (length / window) * window;
    }
    LongRunBound(limit, window, rs, key, lo, n);
    FilterWeaker(Admissions(limit, window, rs, key),
      Between(lo, lo + length), Between(lo, lo + n as real * window));
  }

  // --------------------------------------------------- the bound is attained

  /** `m` requests at the same instant. */
  function Burst(key: string, now: real, m: nat): seq<Request> {
    if m == 0 then [] else Burst(key, now, m - 1) + [Request(key, now)]
  }

  /** `n` bursts of `m` requests at the instants `lo`, `lo + d`, `lo + 2d`, ... */
  function Bursts(key: string, lo: real, d: real, m: nat, n: nat): seq<Request> {
    if n == 0 then [] else Bursts(key, lo, d, m, n - 1) + Burst(key, lo + (n - 1) as real * d, m)
  }

  function Copies(t: real, m: nat): seq<real> {
    if m == 0 then [] else Copies(t, m - 1) + [t]
  }

  /** A hit counts against the window at the instant it is made. */
  lemma {:induction false} CopiesAreRecent(h: seq<real>, now: real, window: real, m: nat)
    requires Recent(h, now, window) == [] && 0.0 <= window
    ensures |Recent(h + Copies(now, m), now, window)| == m && |Copies(now, m)| == m
    ensures forall t | t in Copies(now, m) :: t == now
  {
    if m == 0 {
      assert h + [] == h;
    } else {
      CopiesAreRecent(h, now, window, m - 1);
      Assoc(h, Copies(now, m - 1), [now]);
      FilterConcat(h + Copies(now, m - 1), [now], NoOlderThan(now, window));
    }
  }

  /** The last request of a burst. */
  lemma CopyAdmitted(limit: int, window: real, rs: seq<Request>, r: Request, h: seq<real>, m: nat)
    requires 0 < m <= limit && 0.0 <= window && Recent(h, r.now, window) == []
    requires Admissions(limit, window, rs, r.key) == h + Copies(r.now, m - 1)
    ensures Admissions(limit, window, rs + [r], r.key) == h + Copies(r.now, m)
  {
    CopiesAreRecent(h, r.now, window, m - 1);
    AdmissionsStep(limit, window, rs, r, r.key);
    Assoc(h, Copies(r.now, m - 1), [r.now]);
  }

  /** A burst within the limit is admitted whole, if nothing else is in the window. */
  lemma {:induction false} BurstAdmitted(limit: int, window: real, rs: seq<Request>, key: string, now: real, m: nat)
    requires m <= limit && 0.0 <= window
    requires Recent(Admissions(limit, window, rs, key), now, window) == []
    ensures Admissions(limit, window, rs + Burst(key, now, m), key) == Admissions(limit, window, rs, key) + Copies(now, m)
  {
    var h := Admissions(limit, window, rs, key);
    if m == 0 {
      assert rs + [] == rs && h + [] == h;
    } else {
      var r := Request(key, now);
      BurstAdmitted(limit, window, rs, key, now, m - 1);
      Assoc(rs, Burst(key, now, m - 1), [r]);
      CopyAdmitted(limit, window, rs + Burst(key, now, m - 1), r, h, m);
    }
  }

  lemma OneBurstMore(lo: real, d: real, limit: nat, n: nat, last: real)
    requires n > 0 && 0.0 <= d && last == lo + (n as real - 1.0) * d
    ensures last == lo + (n - 1) as real * d && lo <= last
    ensures last - d == lo + ((n - 1) as real - 1.0) * d
    ensures n * limit == (n - 1) * limit + limit
  {
    assert (n - 1) as real == n as real - 1.0;
  }

  lemma {:induction false} BurstsAdmitted(limit: int, window: real, key: string, lo: real, d: real, n: nat, last: real)
    requires 0 < limit && 0.0 <= window < d
    requires last == lo + (n as real - 1.0) * d
    ensures var h := Admissions(limit, window, Bursts(key, lo, d, limit, n), key);
      |h| == n * limit && forall t | t in h :: lo <= t <= last
  {
    if n > 0 {
      OneBurstMore(lo, d, limit, n, last);
      BurstsAdmitted(limit, window, key, lo, d, n - 1, last - d);
      OneBurstAdmitted(limit, window, Bursts(key, lo, d, limit, n - 1), key, last);
    }
  }

  /** Bursts more than a window apart, on an ordered clock, are all admitted, so `n * limit`
      admissions do fit into any interval longer than `n - 1` windows, and the bound of LongRunBound
      is exact. */
  lemma BoundIsAttained(limit: int, window: real, key: string, lo: real, d: real, n: nat, last: real)
    requires 0 < limit && 0.0 <= window < d
    requires last == lo + (n as real - 1.0) * d
    ensures Ordered(Bursts(key, lo, d, limit, n))
    ensures var h := Admissions(limit, window, Bursts(key, lo, d, limit, n), key);
      |h| == n * limit && forall t | t in h :: lo <= t <= last
  {
    BurstsOrdered(key, lo, d, limit, n, last);
    BurstsAdmitted(limit, window, key, lo, d, n, last);
  }

  lemma OneBurstAdmitted(limit: int, window: real, rs: seq<Request>, key: string, now: real)
    requires 0 < limit && 0.0 <= window
    requires forall t | t in Admissions(limit, window, rs, key) :: now - t > window
    ensures var h, g := Admissions(limit, window, rs, key), Admissions(limit, window, rs + Burst(key, now, limit), key);
      |g| == |h| + limit && forall t | t in g :: t in h || t == now
  {
    var h := Admissions(limit, window, rs, key);
    FilterNone(h, NoOlderThan(now, window));
    BurstAdmitted(limit, window, rs, key, now, limit);
    CopiesAreRecent(h, now, window, limit);
  }

  lemma {:induction false} BurstOrdered(key: string, now: real, m: nat)
    ensures forall r | r in Burst(key, now, m) :: r.now == now
  {
    if m > 0 {
      BurstOrdered(key, now, m - 1);
    }
  }

  lemma OrderedThenLater(a: seq<Request>, b: seq<Request>, now: real)
    requires Ordered(a) && (forall r | r in a :: r.now <= now) && (forall r | r in b :: r.now == now)
    ensures Ordered(a + b) && forall r | r in a + b :: r.now <= now
  {
    assert forall i :: 0 <= i < |a| ==> a[i] in a;
    assert forall i :: 0 <= i < |b| ==> b[i] in b;
  }

  lemma {:induction false} BurstsOrdered(key: string, lo: real, d: real, m: nat, n: nat, last: real)
    requires 0.0 <= d && last == lo + (n as real - 1.0) * d
    ensures Ordered(Bursts(key, lo, d, m, n))
    ensures forall r | r in Bursts(key, lo, d, m, n) :: r.now <= last
  {
    if n > 0 {
      OneBurstMore(lo, d, m, n, last);
      BurstsOrdered(key, lo, d, m, n - 1, last - d);
      BurstOrdered(key, last, m);
      OrderedThenLater(Bursts(key, lo, d, m, n - 1), Burst(key, last, m), last);
    }
  }

  // ------------------------------------------------- a clock that runs backwards

  /** The window bound, for requests that may carry their times in any order: the program reads
      the clock before it takes the lock, so threads may be served out of order. */
  ghost predicate BoundedInAnyOrder(limit: int, window: real) {
    forall rs, key, lo :: WithinLimit(limit, window, rs, key, lo)
  }

  predicate WithinLimit(limit: int, window: real, rs: seq<Request>, key: string, lo: real) {
    CountIn(Serving(limit, window, rs, key).admitted, lo, lo + window) <= Max(0, limit)
  }

  /** With a limit of one the deque is the last admission, and admissions are a window apart. */
  lemma {:induction false} OneAtATime(window: real, rs: seq<Request>, key: string)
    requires 0.0 <= window
    ensures var s := Serving(1, window, rs, key);
      && (s.admitted != [] ==> s.deque == [s.admitted[|s.admitted| - 1]])
      && (s.admitted == [] ==> s.deque == [])
      && forall i, j :: 0 <= i < j < |s.admitted| ==> s.admitted[j] - s.admitted[i] > window
  {
    if rs != [] {
      OneAtATime(window, rs[..|rs| - 1], key);
      var d := Serving(1, window, rs[..|rs| - 1], key).deque;
      var now := rs[|rs| - 1].now;
      assert d != [] ==> d[1..] == [];
      assert Evict(d, now, window) == if d != [] && now - d[0] > window then [] else d;
    }
  }

  lemma {:induction false} FarApart(h: seq<real>, lo: real, hi: real)
    requires forall i, j :: 0 <= i < j < |h| ==> h[j] - h[i] > hi - lo
    ensures CountIn(h, lo, hi) <= 1
  {
    if h != [] {
      FarApart(h[1..], lo, hi);
      if lo <= h[0] <= hi {
        forall x | x in h[1..] ensures !Between(lo, hi)(x) {
          var j :| 0 <= j < |h[1..]| && h[1..][j] == x;
          assert h[j + 1] - h[0] > hi - lo;
        }
        FilterNone(h[1..], Between(lo, hi));
      }
    }
  }

  lemma {:induction false} NothingAdmitted(limit: int, window: real, rs: seq<Request>, key: string)
    requires limit <= 0
    ensures Serving(limit, window, rs, key).admitted == []
  {
    if rs != [] {
      NothingAdmitted(limit, window, rs[..|rs| - 1], key);
    }
  }

  lemma {:induction false} EvictAll(window: real, t: real, now: real, m: nat)
    requires now - t > window
    ensures Evict(Copies(t, m), now, window) == []
  {
    if m > 0 {
      CopiesFront(t, m);
      EvictAll(window, t, now, m - 1);
    }
  }

  lemma {:induction false} CopiesFront(t: real, m: nat)
    requires m > 0
    ensures Copies(t, m)[0] == t && Copies(t, m)[1..] == Copies(t, m - 1)
  {
    if m > 1 {
      CopiesFront(t, m - 1);
    }
  }

  lemma {:induction false} BurstServed(limit: int, window: real, key: string, m: nat)
    requires m <= limit && 0.0 <= window
    ensures Serving(limit, window, Burst(key, 0.0, m), key) == Served(Copies(0.0, m), Copies(0.0, m))
  {
    if m > 0 {
      BurstServed(limit, window, key, m - 1);
      ServingStep(limit, window, Burst(key, 0.0, m - 1), Request(key, 0.0), key);
      CopiesLength(0.0, m - 1);
      assert m > 1 ==> Copies(0.0, m - 1)[0] == 0.0 by {
        if m > 1 {
          CopiesFront(0.0, m - 1);
        }
      }
    }
  }

  lemma {:induction false} CopiesLength(t: real, m: nat)
    ensures |Copies(t, m)| == m && forall x | x in Copies(t, m) :: x == t
  {
    if m > 0 {
      CopiesLength(t, m - 1);
    }
  }

  /** A full burst at time zero, one request just after the window, which empties the deque, and a
      late one that still carries time zero: one too many. */
  lemma LateRequestOverruns(limit: int, window: real, key: string)
    requires 2 <= limit && 0.0 <= window
    ensures var rs := Burst(key, 0.0, limit) + [Request(key, window + 1.0)] + [Request(key, 0.0)];
      CountIn(Serving(limit, window, rs, key).admitted, 0.0, window) > limit
  {
    var burst := Burst(key, 0.0, limit);
    var all, late := Request(key, window + 1.0), Request(key, 0.0);
    var zeros := Copies(0.0, limit);
    BurstServed(limit, window, key, limit);
    EvictAll(window, 0.0, window + 1.0, limit);
    ServingStep(limit, window, burst, all, key);
    ServingStep(limit, window, burst + [all], late, key);
    assert Serving(limit, window, burst + [all] + [late], key).admitted == zeros + [window + 1.0] + [0.0];
    CopiesLength(0.0, limit);
    FilterConcat(zeros + [window + 1.0], [0.0], Between(0.0, window));
    FilterConcat(zeros, [window + 1.0], Between(0.0, window));
    FilterAll(zeros, Between(0.0, window));
  }

  /** Without an ordered clock the window bound survives exactly for limits up to one. */
  lemma BoundNeedsOrder(limit: int, window: real)
    requires 0.0 <= window
    ensures BoundedInAnyOrder(limit, window) <==> limit <= 1
  {
    if limit <= 1 {
      forall rs, key, lo ensures WithinLimit(limit, window, rs, key, lo) {
        if limit == 1 {
          OneAtATime(window, rs, key);
          FarApart(Serving(limit, window, rs, key).admitted, lo, lo + window);
        } else {
          NothingAdmitted(limit, window, rs, key);
        }
      }
    } else {
      LateRequestOverruns(limit, window, "");
      var rs := Burst("", 0.0, limit) + [Request("", window + 1.0)] + [Request("", 0.0)];
      assert !WithinLimit(limit, window, rs, "", 0.0);
    }
  }

  // ------------------------------------------------------ refusal and recovery

  /** A request is refused exactly when `limit` admissions lie in the window before it. */
  lemma RefusedExactlyWhenFull(limit: int, window: real, rs: seq<Request>, r: Request)
    requires Ordered(rs + [r]) && 0 <= limit
    ensures !Admits(limit, window, rs, r)
       <==> CountIn(Admissions(limit, window, rs, r.key), r.now - window, r.now) == limit
  {
    var h := Admissions(limit, window, rs, r.key);
    assert forall i :: 0 <= i < |rs| ==> (rs + [r])[i] == rs[i];
    assert (rs + [r])[|rs|] == r;
    AdmissionsAscend(limit, window, rs, r.key);
    FilterAgree(h, Between(r.now - window, r.now), NoOlderThan(r.now, window));
    WindowBound(limit, window, rs, r.key, r.now - window);
  }

  /** Once more than a window has passed since the last admission, the next request goes through;
      with a positive limit a refused key always recovers. */
  lemma Recovers(limit: int, window: real, rs: seq<Request>, r: Request, refusedAt: real)
    requires forall t | t in Admissions(limit, window, rs, r.key) :: t <= refusedAt
    requires r.now > refusedAt + window
    ensures Admits(limit, window, rs, r) <==> 0 < limit
  {
    FilterNone(Admissions(limit, window, rs, r.key), NoOlderThan(r.now, window));
  }

  /** What one key is granted does not depend on the requests for any other. */
  lemma {:induction false} KeysAreIndependent(limit: int, window: real, rs: seq<Request>, key: string)
    ensures Admissions(limit, window, rs, key)
         == Admissions(limit, window, Filter(rs, (r: Request) => r.key == key), key)
  {
    if rs != [] {
      var before, r := rs[..|rs| - 1], rs[|rs| - 1];
      KeysAreIndependent(limit, window, before, key);
      assert rs == before + [r];
      FilterConcat(before, [r], (r: Request) => r.key == key);
      var mine := Filter(before, (r: Request) => r.key == key);
      if r.key == key {
        assert Filter(rs, (r: Request) => r.key == key) == mine + [r];
        AdmissionsStep(limit, window, before, r, key);
        AdmissionsStep(limit, window, mine, r, key);
      } else {
        assert Filter(rs, (r: Request) => r.key == key) == mine;
      }
    }
  }
}
