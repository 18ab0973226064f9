/** The sliding window the gateway promises, stated over the full history of admissions. */
module SlidingWindow {

  predicate Ordered(times: seq<int>) {
    forall i, j | 0 <= i < j < |times| :: times[i] <= times[j]
  }

  predicate Until(times: seq<int>, now: int) {
    forall i | 0 <= i < |times| :: times[i] <= now
  }

  /** Admissions later than `cutoff`. */
  function Live(history: seq<int>, cutoff: int): seq<int> {
    if history == [] then []
    else if history[0] > cutoff then [history[0]] + Live(history[1..], cutoff)
    else Live(history[1..], cutoff)
  }

  /** Zero when a request at `now` is admitted, else how long to wait. */
  function Wait(history: seq<int>, limit: int, now: int, window: int): int
    requires limit >= 1
  {
    var live := Live(history, now - window);
    if |live| >= limit then live[0] + window - now else 0
  }

  function Record(history: seq<int>, limit: int, now: int, window: int): seq<int>
    requires limit >= 1
  {
    if Wait(history, limit, now, window) == 0 then history + [now] else history
  }

  /** The admissions left after requests at the given times. */
  function Admissions(history: seq<int>, limit: int, calls: seq<int>, window: int): seq<int>
    requires limit >= 1
    decreases |calls|
  {
    if calls == [] then history else Admissions(Record(history, limit, calls[0], window), limit, calls[1..], window)
  }

  /** Any `limit + 1` consecutive admissions span at least a window. */
  predicate Spaced(history: seq<int>, limit: int, window: int)
    requires limit >= 1
  {
    forall i | 0 <= i && i + limit < |history| :: history[i + limit] - history[i] >= window
  }

  lemma {:induction false} LiveIsSuffix(history: seq<int>, k: nat, cutoff: int)
    requires k <= |history|
    requires forall i | 0 <= i < k :: history[i] <= cutoff
    requires forall i | k <= i < |history| :: history[i] > cutoff
    ensures Live(history, cutoff) == history[k..]
    decreases |history|
  {
    if history != [] {
      LiveIsSuffix(history[1..], if k == 0 then 0 else k - 1, cutoff);
    }
  }

  /** In an ordered history the expired admissions come first; `known` of them have been seen already. */
  lemma {:induction false} ExpiredCount(history: seq<int>, known: nat, cutoff: int) returns (k: nat)
    requires Ordered(history) && known <= |history|
    requires forall i | 0 <= i < known :: history[i] <= cutoff
    ensures known <= k <= |history|
    ensures forall i | 0 <= i < k :: history[i] <= cutoff
    ensures forall i | k <= i < |history| :: history[i] > cutoff
    ensures Live(history, cutoff) == history[k..]
  {
    k := known;
    while k < |history| && history[k] <= cutoff
      invariant known <= k <= |history|
      invariant forall i | 0 <= i < k :: history[i] <= cutoff
    {
      k := k + 1;
    }
    LiveIsSuffix(history, k, cutoff);
  }

  lemma WaitIsPositiveOrAdmitted(history: seq<int>, limit: int, now: int, window: int)
    requires Ordered(history) && limit >= 1
    ensures Wait(history, limit, now, window) >= 0
    ensures Wait(history, limit, now, window) == 0 <==> |Live(history, now - window)| < limit
  {
    var k := ExpiredCount(history, 0, now - window);
  }

  lemma RecordKeepsSpacing(history: seq<int>, limit: int, now: int, window: int)
    requires limit >= 1 && Ordered(history) && Spaced(history, limit, window)
    requires Until(history, now)
    ensures var next := Record(history, limit, now, window);
            Ordered(next) && Spaced(next, limit, window) && Until(next, now)
  {
    var next := Record(history, limit, now, window);
    WaitIsPositiveOrAdmitted(history, limit, now, window);
    var k := ExpiredCount(history, 0, now - window);
    if next != history && limit <= |history| {
      assert |history| - limit < k;
      assert next[|history| - limit] == history[|history| - limit] <= now - window;
    }
  }

  lemma {:induction false} AdmissionsStaySpaced(history: seq<int>, limit: int, calls: seq<int>, window: int)
    requires limit >= 1 && Ordered(history) && Spaced(history, limit, window) && Ordered(calls)
    requires calls != [] ==> Until(history, calls[0])
    ensures var after := Admissions(history, limit, calls, window);
            && Ordered(after) && Spaced(after, limit, window)
            && (calls != [] ==> Until(after, calls[|calls| - 1]))
    decreases |calls|
  {
    if calls != [] {
      RecordKeepsSpacing(history, limit, calls[0], window);
      AdmissionsStaySpaced(Record(history, limit, calls[0], window), limit, calls[1..], window);
    }
  }

  /** How many admissions fall in [from, to). */
  function CountIn(history: seq<int>, from: int, to: int): nat {
    if history == [] then 0
    else CountIn(history[..|history| - 1], from, to) + if from <= history[|history| - 1] < to then 1 else 0
  }

  lemma {:induction false} CountIsSmall(history: seq<int>, k: nat, from: int, to: int)
    requires k <= |history|
    requires forall i | 0 <= i < k :: history[i] < from
    ensures CountIn(history, from, to) <= |history| - k
  {
    if |history| > 0 {
      CountIsSmall(history[..|history| - 1], if k == |history| then k - 1 else k, from, to);
    }
  }

  lemma {:induction false} SpacedMeansFew(history: seq<int>, limit: int, window: int, from: int)
    requires limit >= 1 && Ordered(history) && Spaced(history, limit, window)
    ensures CountIn(history, from, from + window) <= limit
  {
    var n := |history|;
    if n > limit {
      if from <= history[n - 1] < from + window {
        assert history[n - 1] - history[n - 1 - limit] >= window;
        CountIsSmall(history, n - limit, from, from + window);
      } else {
        SpacedMeansFew(history[..n - 1], limit, window, from);
      }
    } else {
      CountIsSmall(history, 0, from, from + window);
    }
  }

  lemma SpacedAt(history: seq<int>, limit: int, window: int, i: nat)
    requires limit >= 1 && Spaced(history, limit, window) && i + limit < |history|
    ensures history[i + limit] - history[i] >= window
  {
  }

  lemma FewAreLive(history: seq<int>, limit: int, window: int, now: int, k: nat)
    requires limit >= 1 && Spaced(history, limit, window) && Until(history, now)
    requires k < |history| && history[k] > now - window
    ensures |history| - k <= limit
  {
    if k + limit < |history| {
      SpacedAt(history, limit, window, k);
    }
  }

  /** Until the oldest live admission expires nothing changes; when it does, fewer are live. */
  lemma LiveLater(history: seq<int>, k: nat, cutoff: int, later: int)
    requires Ordered(history) && k < |history| && cutoff <= later
    requires forall i | 0 <= i < k :: history[i] <= cutoff
    ensures later < history[k] ==> Live(history, later) == history[k..]
    ensures later >= history[k] ==> |Live(history, later)| < |history| - k
  {
    if later < history[k] {
      LiveIsSuffix(history, k, later);
    } else {
      var m := ExpiredCount(history, k + 1, later);
    }
  }

  /** The wait is exact: unless others are admitted meanwhile, a retry succeeds if and only if it comes no earlier. */
  lemma WaitIsLeast(calls: seq<int>, limit: int, window: int, now: int, delay: int)
    requires limit >= 1 && Ordered(calls) && window > 0 && delay >= 0
    requires calls != [] ==> calls[|calls| - 1] <= now
    ensures var history := Admissions([], limit, calls, window);
            var wait := Wait(history, limit, now, window);
            0 <= wait <= window && (Wait(history, limit, now + delay, window) == 0 <==> delay >= wait)
  {
    var history := Admissions([], limit, calls, window);
    AdmissionsStaySpaced([], limit, calls, window);
    assert Until(history, now);
    WaitIsExact(history, limit, window, now, delay);
  }

  lemma WaitIsExact(history: seq<int>, limit: int, window: int, now: int, delay: int)
    requires limit >= 1 && window > 0 && delay >= 0
    requires Ordered(history) && Spaced(history, limit, window) && Until(history, now)
    ensures var wait := Wait(history, limit, now, window);
            0 <= wait <= window && (Wait(history, limit, now + delay, window) == 0 <==> delay >= wait)
  {
    var wait := Wait(history, limit, now, window);
    WaitIsPositiveOrAdmitted(history, limit, now, window);
    var k := ExpiredCount(history, 0, now - window);
    WaitIsPositiveOrAdmitted(history, limit, now + delay, window);
    if wait > 0 {
      FewAreLive(history, limit, window, now, k);
      LiveLater(history, k, now - window, now + delay - window);
    } else {
      var m := ExpiredCount(history, k, now + delay - window);
    }
  }

  // ---------- Many keys ----------

  /** A key stands for one route and client address; its limit never varies. */
  type Key = string
  datatype Request = Request(key: Key, limit: int, now: int)

  /** Clocks do not run backwards, and the middleware replaces limits below 1. */
  predicate Legal(requests: seq<Request>, clock: int)
    decreases |requests|
  {
    requests != [] ==> clock <= requests[0].now && requests[0].limit >= 1 && Legal(requests[1..], requests[0].now)
  }

  function HistoryOf(histories: map<Key, seq<int>>, key: Key): seq<int> {
    if key in histories then histories[key] else []
  }

  /** The waits computed from everything that was ever admitted under each key. */
  function Promised(histories: map<Key, seq<int>>, requests: seq<Request>, clock: int, window: int): (waits: seq<int>)
    requires Legal(requests, clock)
    ensures |waits| == |requests|
    decreases |requests|
  {
    if requests == [] then []
    else
      var r := requests[0];
      var h := HistoryOf(histories, r.key);
      [Wait(h, r.limit, r.now, window)] + Promised(histories[r.key := Record(h, r.limit, r.now, window)], requests[1..], r.now, window)
  }

  lemma {:induction false} OnlyHistoriesMatter(a: map<Key, seq<int>>, b: map<Key, seq<int>>, requests: seq<Request>, clock: int, window: int)
    requires Legal(requests, clock) && forall key :: HistoryOf(a, key) == HistoryOf(b, key)
    ensures Promised(a, requests, clock, window) == Promised(b, requests, clock, window)
    decreases |requests|
  {
    if requests != [] {
      var r := requests[0];
      var record := Record(HistoryOf(a, r.key), r.limit, r.now, window);
      var x, y := a[r.key := record], b[r.key := record];
      forall key ensures HistoryOf(x, key) == HistoryOf(y, key) {
        assert HistoryOf(a, key) == HistoryOf(b, key);
      }
      OnlyHistoriesMatter(x, y, requests[1..], r.now, window);
    }
  }

  /** All elements but the one at `n`. */
  function Skip<T>(xs: seq<T>, n: nat): seq<T>
    requires n < |xs|
  {
    xs[..n] + xs[n + 1..]
  }

  lemma SkipLater<T>(xs: seq<T>, n: nat)
    requires 0 < n < |xs|
    ensures Skip(xs, n) == [xs[0]] + Skip(xs[1..], n - 1)
  {
  }

  lemma {:induction false} LegalWithoutOne(requests: seq<Request>, n: nat, clock: int)
    requires Legal(requests, clock) && n < |requests|
    ensures Legal(Skip(requests, n), clock)
    decreases |requests|
  {
    if n > 0 {
      SkipLater(requests, n);
      LegalWithoutOne(requests[1..], n - 1, requests[0].now);
      assert Skip(requests, n)[1..] == Skip(requests[1..], n - 1);
    } else {
      assert Skip(requests, 0) == requests[1..];
    }
  }

  /** Without a rejected request all other waits are promised just the same. */
  lemma {:induction false} PromisedWithoutRejected(histories: map<Key, seq<int>>, requests: seq<Request>, n: nat, clock: int, window: int)
    requires Legal(requests, clock) && n < |requests| && Promised(histories, requests, clock, window)[n] != 0
    ensures Legal(Skip(requests, n), clock)
    ensures Promised(histories, Skip(requests, n), clock, window) == Skip(Promised(histories, requests, clock, window), n)
    decreases |requests|
  {
    LegalWithoutOne(requests, n, clock);
    var r, rest := requests[0], requests[1..];
    var next := histories[r.key := Record(HistoryOf(histories, r.key), r.limit, r.now, window)];
    var waits := Promised(histories, requests, clock, window);
    assert waits[1..] == Promised(next, rest, r.now, window);
    if n == 0 {
      assert Skip(requests, 0) == rest && Skip(waits, 0) == waits[1..];
      OnlyHistoriesMatter(histories, next, rest, r.now, window);
      EarlierClock(histories, rest, clock, r.now, window);
    } else {
      SkipLater(requests, n);
      SkipLater(waits, n);
      PromisedWithoutRejected(next, rest, n - 1, r.now, window);
      assert Skip(requests, n)[1..] == Skip(rest, n - 1);
    }
  }

  lemma EarlierClock(histories: map<Key, seq<int>>, requests: seq<Request>, clock: int, later: int, window: int)
    requires Legal(requests, clock) && Legal(requests, later)
    ensures Promised(histories, requests, clock, window) == Promised(histories, requests, later, window)
  {
  }

  /** How many requests under `key` in [from, to) were answered with no wait. */
  function Admitted(requests: seq<Request>, waits: seq<int>, key: Key, from: int, to: int): nat
    requires |requests| == |waits|
    decreases |requests|
  {
    if requests == [] then 0
    else (if requests[0].key == key && waits[0] == 0 && from <= requests[0].now < to then 1 else 0)
         + Admitted(requests[1..], waits[1..], key, from, to)
  }

  lemma {:induction false} PromisedAdmitsFew(histories: map<Key, seq<int>>, requests: seq<Request>, clock: int, window: int, key: Key, limit: int, from: int)
    requires Legal(requests, clock) && limit >= 1
    requires forall r | r in requests && r.key == key :: r.limit == limit
    requires var h := HistoryOf(histories, key); Ordered(h) && Spaced(h, limit, window) && Until(h, clock)
    ensures CountIn(HistoryOf(histories, key), from, from + window)
          + Admitted(requests, Promised(histories, requests, clock, window), key, from, from + window) <= limit
    decreases |requests|
  {
    var h := HistoryOf(histories, key);
    if requests == [] {
      SpacedMeansFew(h, limit, window, from);
    } else {
      var r := requests[0];
      var mine := HistoryOf(histories, r.key);
      var next := histories[r.key := Record(mine, r.limit, r.now, window)];
      assert r in requests;
      if r.key == key {
        RecordKeepsSpacing(h, limit, r.now, window);
        assert (h + [r.now])[..|h|] == h;
      }
      PromisedAdmitsFew(next, requests[1..], r.now, window, key, limit, from);
      assert Promised(histories, requests, clock, window)[1..] == Promised(next, requests[1..], r.now, window);
    }
  }

  /** Whatever is asked under other keys, no interval [from, from + window) admits more than `limit` requests under a key. */
  lemma AtMostLimitPerKey(requests: seq<Request>, clock: int, window: int, key: Key, limit: int, from: int)
    requires Legal(requests, clock) && limit >= 1
    requires forall r | r in requests && r.key == key :: r.limit == limit
    ensures Admitted(requests, Promised(map[], requests, clock, window), key, from, from + window) <= limit
  {
    PromisedAdmitsFew(map[], requests, clock, window, key, limit, from);
  }

  // ---------- Who is admitted ----------

  predicate InOrderUntil(history: seq<int>, clock: int) {
    Ordered(history) && Until(history, clock)
  }

  ghost predicate AllInOrder(histories: map<Key, seq<int>>, clock: int) {
    forall key :: InOrderUntil(HistoryOf(histories, key), clock)
  }

  /** Request `n` is admitted exactly when the earlier admissions under its key leave room. */
  predicate RoomDecides(histories: map<Key, seq<int>>, requests: seq<Request>, waits: seq<int>, n: nat, window: int)
    requires n < |requests| == |waits|
  {
    var r := requests[n];
    waits[n] == 0 <==>
      CountIn(HistoryOf(histories, r.key), r.now - window + 1, r.now + 1)
        + Admitted(requests[..n], waits[..n], r.key, r.now - window + 1, r.now + 1) < r.limit
  }

  lemma {:induction false} CountIsLarge(history: seq<int>, k: nat, from: int, to: int)
    requires k <= |history|
    requires forall i | 0 <= i < k :: history[i] < from
    requires forall i | k <= i < |history| :: from <= history[i] < to
    ensures CountIn(history, from, to) == |history| - k
  {
    if |history| > 0 {
      CountIsLarge(history[..|history| - 1], if k == |history| then k - 1 else k, from, to);
    }
  }

  lemma LiveIsCounted(history: seq<int>, limit: int, now: int, window: int)
    requires limit >= 1 && Ordered(history) && Until(history, now)
    ensures Wait(history, limit, now, window) == 0 <==> CountIn(history, now - window + 1, now + 1) < limit
  {
    WaitIsPositiveOrAdmitted(history, limit, now, window);
    var k := ExpiredCount(history, 0, now - window);
    CountIsLarge(history, k, now - window + 1, now + 1);
  }

  lemma RecordKeepsOrder(histories: map<Key, seq<int>>, r: Request, clock: int, window: int)
    requires AllInOrder(histories, clock) && clock <= r.now && r.limit >= 1
    ensures AllInOrder(histories[r.key := Record(HistoryOf(histories, r.key), r.limit, r.now, window)], r.now)
  {
    var next := histories[r.key := Record(HistoryOf(histories, r.key), r.limit, r.now, window)];
    forall key ensures InOrderUntil(HistoryOf(next, key), r.now) {
      assert InOrderUntil(HistoryOf(histories, key), clock);
    }
  }

  lemma RecordIsCounted(histories: map<Key, seq<int>>, r: Request, window: int, key: Key, from: int, to: int)
    requires r.limit >= 1
    ensures var h := HistoryOf(histories, r.key);
      CountIn(HistoryOf(histories[r.key := Record(h, r.limit, r.now, window)], key), from, to)
      == CountIn(HistoryOf(histories, key), from, to)
       + if r.key == key && Wait(h, r.limit, r.now, window) == 0 && from <= r.now < to then 1 else 0
  {
    var h := HistoryOf(histories, r.key);
    assert (h + [r.now])[..|h|] == h;
  }

  lemma AdmittedFirst(requests: seq<Request>, waits: seq<int>, n: nat, key: Key, from: int, to: int)
    requires 0 < n <= |requests| == |waits|
    ensures Admitted(requests[..n], waits[..n], key, from, to)
         == (if requests[0].key == key && waits[0] == 0 && from <= requests[0].now < to then 1 else 0)
          + Admitted(requests[1..][..n - 1], waits[1..][..n - 1], key, from, to)
  {
    assert requests[..n][1..] == requests[1..][..n - 1] && waits[..n][1..] == waits[1..][..n - 1];
  }

  lemma FirstIsDecided(histories: map<Key, seq<int>>, requests: seq<Request>, clock: int, window: int)
    requires Legal(requests, clock) && requests != [] && AllInOrder(histories, clock)
    ensures RoomDecides(histories, requests, Promised(histories, requests, clock, window), 0, window)
  {
    var r := requests[0];
    assert InOrderUntil(HistoryOf(histories, r.key), clock);
    LiveIsCounted(HistoryOf(histories, r.key), r.limit, r.now, window);
  }

  lemma LaterIsDecided(histories: map<Key, seq<int>>, next: map<Key, seq<int>>, requests: seq<Request>, waits: seq<int>, n: nat, window: int)
    requires 0 < n < |requests| == |waits| && requests[0].limit >= 1
    requires var first := requests[0]; var h := HistoryOf(histories, first.key);
      next == histories[first.key := Record(h, first.limit, first.now, window)] && waits[0] == Wait(h, first.limit, first.now, window)
    requires RoomDecides(next, requests[1..], waits[1..], n - 1, window)
    ensures RoomDecides(histories, requests, waits, n, window)
  {
    var r := requests[n];
    assert requests[1..][n - 1] == r && waits[1..][n - 1] == waits[n];
    RecordIsCounted(histories, requests[0], window, r.key, r.now - window + 1, r.now + 1);
    AdmittedFirst(requests, waits, n, r.key, r.now - window + 1, r.now + 1);
  }

  lemma {:induction false} AdmittedFromHistory(histories: map<Key, seq<int>>, requests: seq<Request>, clock: int, window: int, n: nat)
    requires Legal(requests, clock) && n < |requests| && AllInOrder(histories, clock)
    ensures RoomDecides(histories, requests, Promised(histories, requests, clock, window), n, window)
    decreases |requests|
  {
    if n == 0 {
      FirstIsDecided(histories, requests, clock, window);
    } else {
      var first, waits := requests[0], Promised(histories, requests, clock, window);
      var next := histories[first.key := Record(HistoryOf(histories, first.key), first.limit, first.now, window)];
      RecordKeepsOrder(histories, first, clock, window);
      AdmittedFromHistory(next, requests[1..], first.now, window, n - 1);
      assert waits[1..] == Promised(next, requests[1..], first.now, window);
      LaterIsDecided(histories, next, requests, waits, n, window);
    }
  }

  /** A request is admitted exactly when fewer than its limit were admitted under its key in the window that ends now,
      whatever was rejected and whatever is asked under other keys. */
  lemma AdmittedIffFewerInWindow(requests: seq<Request>, clock: int, window: int, n: nat)
    requires Legal(requests, clock) && n < |requests|
    ensures var waits, r := Promised(map[], requests, clock, window), requests[n];
      waits[n] == 0 <==> Admitted(requests[..n], waits[..n], r.key, r.now - window + 1, r.now + 1) < r.limit
  {
    AdmittedFromHistory(map[], requests, clock, window, n);
  }

  /** Durations are in nanoseconds; the script counts milliseconds. */
  const SECOND := 1_000_000_000
  const MILLISECOND := 1_000_000

  /** The Retry-After header of a rejected request: the whole numbers of seconds that cover the wait start here. */
  function RetryAfter(wait: int): (seconds: int)
    requires wait > 0
    ensures forall s: int :: s * SECOND >= wait <==> s >= seconds
  {
    (wait + SECOND - 1) / SECOND
  }

  /** A client that obeys the header is admitted, unless others are admitted meanwhile; one that comes a second
      before it is not. The clock of `calls` and `now` ticks once in every `tick` nanoseconds. */
  lemma ObeyingTheHeader(calls: seq<int>, limit: int, window: int, now: int, s: nat, tick: int)
    requires limit >= 1 && Ordered(calls) && window > 0 && (tick == 1 || tick == MILLISECOND)
    requires calls != [] ==> calls[|calls| - 1] <= now
    requires Wait(Admissions([], limit, calls, window), limit, now, window) > 0
    ensures var history := Admissions([], limit, calls, window);
            Wait(history, limit, now + s * (SECOND / tick), window) == 0
            <==> s >= RetryAfter(Wait(history, limit, now, window) * tick)
  {
    var wait := Wait(Admissions([], limit, calls, window), limit, now, window);
    WaitIsLeast(calls, limit, window, now, s * (SECOND / tick));
    if tick == 1 {
      assert s * SECOND >= wait <==> s >= RetryAfter(wait);
    } else {
      assert SECOND / tick == 1000;
      assert s * SECOND >= wait * MILLISECOND <==> s >= RetryAfter(wait * MILLISECOND);
    }
  }
}
