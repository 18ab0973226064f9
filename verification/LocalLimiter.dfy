/** The in-memory limiter: a pruned queue per visitor, and a sweep that forgets idle visitors. */
module LocalLimiter {
  import opened Wrappers
  import opened SlidingWindow

  const WINDOW := 60 * SECOND
  const IDLE := 600 * SECOND

  datatype Visitor = Visitor(requests: seq<int>, lastSeen: int)

  function Pruned(requests: seq<int>, cutoff: int): seq<int> {
    if requests == [] || requests[0] > cutoff then requests else Pruned(requests[1..], cutoff)
  }

  function Known(visitors: map<Key, Visitor>, key: Key): seq<int> {
    if key in visitors then visitors[key].requests else []
  }

  function Answer(visitors: map<Key, Visitor>, key: Key, limit: int, now: int): int
    requires limit >= 1
  {
    var kept := Pruned(Known(visitors, key), now - WINDOW);
    if |kept| >= limit then kept[0] + WINDOW - now else 0
  }

  function Visit(visitors: map<Key, Visitor>, key: Key, limit: int, now: int): map<Key, Visitor>
    requires limit >= 1
  {
    var kept := Pruned(Known(visitors, key), now - WINDOW);
    visitors[key := Visitor(if |kept| >= limit then kept else kept + [now], now)]
  }

  function Sweep(visitors: map<Key, Visitor>, now: int): map<Key, Visitor> {
    map key | key in visitors && now - visitors[key].lastSeen <= IDLE :: visitors[key]
  }

  class Limiter {
    var visitors: map<Key, Visitor>

    constructor ()
      ensures visitors == map[]
    {
      visitors := map[];
    }

    method RateLimitWait(key: Key, limit: int, now: int) returns (wait: int)
      requires limit >= 1
      modifies this
      ensures wait == Answer(old(visitors), key, limit, now)
      ensures visitors == Visit(old(visitors), key, limit, now)
    {
      var v := if key in visitors then visitors[key] else Visitor([], now);
      v := v.(lastSeen := now);
      var expired := 0;
      while expired < |v.requests| && v.requests[expired] <= now - WINDOW
        invariant 0 <= expired <= |v.requests|
        invariant Pruned(v.requests[expired..], now - WINDOW) == Pruned(v.requests, now - WINDOW)
      {
        assert v.requests[expired..][1..] == v.requests[expired + 1..];
        expired := expired + 1;
      }
      if expired > 0 {
        v := v.(requests := v.requests[expired..]);
      }
      if |v.requests| >= limit {
        visitors := visitors[key := v];
        return v.requests[0] + WINDOW - now;
      }
      v := v.(requests := v.requests + [now]);
      visitors := visitors[key := v];
      return 0;
    }

    method CleanupVisitors(now: int)
      modifies this
      ensures visitors == Sweep(old(visitors), now)
    {
      var todo := visitors.Keys;
      while todo != {}
        invariant todo <= visitors.Keys
        invariant visitors == map key | key in old(visitors) && (key in todo || now - old(visitors)[key].lastSeen <= IDLE) :: old(visitors)[key]
        decreases todo
      {
        var key :| key in todo;
        if now - visitors[key].lastSeen > IDLE {
          visitors := visitors - {key};
        }
        todo := todo - {key};
      }
    }
  }

  // ---------- The limiter agrees with the full history ----------

  datatype Operation = Ask(request: Request) | Cleanup(now: int)

  function Requests(operations: seq<Operation>): seq<Request> {
    if operations == [] then []
    else (if operations[0].Ask? then [operations[0].request] else []) + Requests(operations[1..])
  }

  function When(o: Operation): int {
    if o.Ask? then o.request.now else o.now
  }

  predicate InOrder(operations: seq<Operation>, clock: int)
    decreases |operations|
  {
    operations != [] ==>
      && clock <= When(operations[0])
      && (operations[0].Ask? ==> operations[0].request.limit >= 1)
      && InOrder(operations[1..], When(operations[0]))
  }

  /** The waits the limiter answers. */
  function Answers(visitors: map<Key, Visitor>, operations: seq<Operation>, clock: int): seq<int>
    requires InOrder(operations, clock)
    decreases |operations|
  {
    if operations == [] then [] else
      match operations[0]
      case Ask(r) => [Answer(visitors, r.key, r.limit, r.now)] + Answers(Visit(visitors, r.key, r.limit, r.now), operations[1..], r.now)
      case Cleanup(now) => Answers(Sweep(visitors, now), operations[1..], now)
  }

  /** `queue` is what is left of `history` when its expired front is cut off. */
  predicate Suffices(queue: seq<int>, history: seq<int>, cutoff: int) {
    && |queue| <= |history|
    && queue == history[|history| - |queue|..]
    && (forall i | 0 <= i < |history| - |queue| :: history[i] <= cutoff)
  }

  function Find(visitors: map<Key, Visitor>, key: Key): Option<Visitor> {
    if key in visitors then Some(visitors[key]) else None
  }

  /** What is forgotten about a visitor can no longer matter at or after `clock`. */
  predicate Remembers(v: Option<Visitor>, history: seq<int>, clock: int) {
    && Ordered(history) && Until(history, clock)
    && Suffices(if v.Some? then v.value.requests else [], history, clock - WINDOW)
    && (v.Some? ==> v.value.lastSeen <= clock && Until(history, v.value.lastSeen))
  }

  predicate AllRemembered(visitors: map<Key, Visitor>, histories: map<Key, seq<int>>, clock: int) {
    forall key | key in visitors.Keys + histories.Keys :: Remembers(Find(visitors, key), HistoryOf(histories, key), clock)
  }

  lemma {:induction false} PrunedIsSuffix(requests: seq<int>, k: nat, cutoff: int)
    requires k <= |requests|
    requires forall i | 0 <= i < k :: requests[i] <= cutoff
    requires k < |requests| ==> requests[k] > cutoff
    ensures Pruned(requests, cutoff) == requests[k..]
  {
    if k > 0 {
      PrunedIsSuffix(requests[1..], k - 1, cutoff);
      assert requests[1..][k - 1..] == requests[k..];
    }
  }

  lemma PruningIsLive(queue: seq<int>, history: seq<int>, clock: int, now: int)
    requires Ordered(history) && Suffices(queue, history, clock - WINDOW) && clock <= now
    ensures Pruned(queue, now - WINDOW) == Live(history, now - WINDOW)
    ensures Suffices(Pruned(queue, now - WINDOW), history, now - WINDOW)
  {
    var d := |history| - |queue|;
    var k := ExpiredCount(history, d, now - WINDOW);
    PrunedIsSuffix(queue, k - d, now - WINDOW);
    assert queue[k - d..] == history[k..];
  }

  lemma LaterStillRemembers(v: Option<Visitor>, history: seq<int>, clock: int, now: int)
    requires Remembers(v, history, clock) && clock <= now
    ensures Remembers(v, history, now)
  {
  }

  lemma AppendSuffices(queue: seq<int>, history: seq<int>, cutoff: int, now: int)
    requires Suffices(queue, history, cutoff)
    ensures Suffices(queue + [now], history + [now], cutoff)
  {
    assert (history + [now])[|history| - |queue|..] == history[|history| - |queue|..] + [now];
  }

  lemma AppendStaysOrdered(history: seq<int>, clock: int, now: int)
    requires Ordered(history) && Until(history, clock) && clock <= now
    ensures Ordered(history + [now]) && Until(history + [now], now) && Until(history, now)
  {
  }

  lemma VisitAnswersRight(visitors: map<Key, Visitor>, key: Key, history: seq<int>, clock: int, limit: int, now: int)
    requires Remembers(Find(visitors, key), history, clock) && clock <= now && limit >= 1
    ensures Answer(visitors, key, limit, now) == Wait(history, limit, now, WINDOW)
  {
    PruningIsLive(Known(visitors, key), history, clock, now);
    SameDecision(Pruned(Known(visitors, key), now - WINDOW), history, limit, now);
  }

  lemma SameDecision(kept: seq<int>, history: seq<int>, limit: int, now: int)
    requires Ordered(history) && limit >= 1 && kept == Live(history, now - WINDOW)
    ensures Wait(history, limit, now, WINDOW) == if |kept| >= limit then kept[0] + WINDOW - now else 0
    ensures Record(history, limit, now, WINDOW) == if |kept| >= limit then history else history + [now]
  {
    WaitIsPositiveOrAdmitted(history, limit, now, WINDOW);
  }

  lemma KeptRemembers(kept: seq<int>, history: seq<int>, clock: int, limit: int, now: int, v: Visitor, record: seq<int>)
    requires Ordered(history) && Until(history, clock) && clock <= now && Suffices(kept, history, now - WINDOW)
    requires v == Visitor(if |kept| >= limit then kept else kept + [now], now)
    requires record == if |kept| >= limit then history else history + [now]
    ensures Remembers(Some(v), record, now)
  {
    AppendSuffices(kept, history, now - WINDOW, now);
    AppendStaysOrdered(history, clock, now);
  }

  lemma OthersStillRemembered(visitors: map<Key, Visitor>, histories: map<Key, seq<int>>, clock: int,
                              key: Key, v: Visitor, history: seq<int>, now: int)
    requires AllRemembered(visitors, histories, clock) && clock <= now && Remembers(Some(v), history, now)
    ensures AllRemembered(visitors[key := v], histories[key := history], now)
  {
    var after, extended := visitors[key := v], histories[key := history];
    forall other | other in after.Keys + extended.Keys
      ensures Remembers(Find(after, other), HistoryOf(extended, other), now)
    {
      if other == key {
        assert Find(after, other) == Some(v) && HistoryOf(extended, other) == history;
      } else {
        assert Find(after, other) == Find(visitors, other) && HistoryOf(extended, other) == HistoryOf(histories, other);
        LaterStillRemembers(Find(visitors, other), HistoryOf(histories, other), clock, now);
      }
    }
  }

  lemma VisitKeepsMemory(visitors: map<Key, Visitor>, histories: map<Key, seq<int>>, clock: int, key: Key, limit: int, now: int)
    requires AllRemembered(visitors, histories, clock) && clock <= now && limit >= 1
    ensures Answer(visitors, key, limit, now) == Wait(HistoryOf(histories, key), limit, now, WINDOW)
    ensures AllRemembered(Visit(visitors, key, limit, now), histories[key := Record(HistoryOf(histories, key), limit, now, WINDOW)], now)
  {
    var h, kept := HistoryOf(histories, key), Pruned(Known(visitors, key), now - WINDOW);
    var v, record := Visit(visitors, key, limit, now)[key], Record(h, limit, now, WINDOW);
    VisitAnswersRight(visitors, key, h, clock, limit, now);
    PruningIsLive(Known(visitors, key), h, clock, now);
    SameDecision(kept, h, limit, now);
    KeptRemembers(kept, h, clock, limit, now, v, record);
    OthersStillRemembered(visitors, histories, clock, key, v, record, now);
  }

  lemma SweepKeepsMemory(visitors: map<Key, Visitor>, histories: map<Key, seq<int>>, clock: int, now: int)
    requires AllRemembered(visitors, histories, clock) && clock <= now
    ensures AllRemembered(Sweep(visitors, now), histories, now)
  {
    forall key | key in Sweep(visitors, now).Keys + histories.Keys
      ensures Remembers(Find(Sweep(visitors, now), key), HistoryOf(histories, key), now)
    {
      assert Remembers(Find(visitors, key), HistoryOf(histories, key), clock);
    }
  }

  lemma {:induction false} OrderedRequests(operations: seq<Operation>, clock: int, earlier: int)
    requires InOrder(operations, clock) && earlier <= clock
    ensures Legal(Requests(operations), earlier)
    decreases |operations|
  {
    if operations != [] {
      if operations[0].Ask? {
        OrderedRequests(operations[1..], When(operations[0]), When(operations[0]));
      } else {
        OrderedRequests(operations[1..], When(operations[0]), earlier);
        assert Requests(operations) == Requests(operations[1..]);
      }
    }
  }

  /** Pruning and forgetting idle visitors never change an answer, for any interleaving of keys and sweeps. */
  lemma {:induction false} AnswersAsPromised(visitors: map<Key, Visitor>, histories: map<Key, seq<int>>, operations: seq<Operation>, clock: int)
    requires InOrder(operations, clock) && AllRemembered(visitors, histories, clock)
    ensures Legal(Requests(operations), clock)
    ensures Answers(visitors, operations, clock) == Promised(histories, Requests(operations), clock, WINDOW)
    decreases |operations|
  {
    OrderedRequests(operations, clock, clock);
    if operations != [] {
      var rest := operations[1..];
      match operations[0]
      case Ask(r) =>
        VisitKeepsMemory(visitors, histories, clock, r.key, r.limit, r.now);
        AnswersAsPromised(Visit(visitors, r.key, r.limit, r.now),
                          histories[r.key := Record(HistoryOf(histories, r.key), r.limit, r.now, WINDOW)], rest, r.now);
        assert Requests(operations)[1..] == Requests(rest);
      case Cleanup(now) =>
        SweepKeepsMemory(visitors, histories, clock, now);
        AnswersAsPromised(Sweep(visitors, now), histories, rest, now);
        assert Requests(operations) == Requests(rest);
        EarlierClock(histories, Requests(rest), clock, now, WINDOW);
    }
  }

  lemma LocalLimiterRefinesWindow(operations: seq<Operation>, clock: int)
    requires InOrder(operations, clock)
    ensures Legal(Requests(operations), clock)
    ensures Answers(map[], operations, clock) == Promised(map[], Requests(operations), clock, WINDOW)
  {
    AnswersAsPromised(map[], map[], operations, clock);
  }

  // ---------- Rejected requests leave no trace ----------

  /** A rejected visit prunes the queue and moves lastSeen, which a later cleanup reads; no later answer depends on that. */
  lemma RejectedVisitIsInvisible(visitors: map<Key, Visitor>, histories: map<Key, seq<int>>, clock: int, r: Request, later: seq<Operation>)
    requires AllRemembered(visitors, histories, clock) && clock <= r.now && r.limit >= 1 && InOrder(later, r.now)
    requires Answer(visitors, r.key, r.limit, r.now) != 0
    ensures Answers(Visit(visitors, r.key, r.limit, r.now), later, r.now) == Answers(visitors, later, r.now)
  {
    var h := HistoryOf(histories, r.key);
    VisitKeepsMemory(visitors, histories, clock, r.key, r.limit, r.now);
    AnswersAsPromised(Visit(visitors, r.key, r.limit, r.now), histories[r.key := h], later, r.now);
    TimePassesInMemory(visitors, histories, clock, r.now);
    AnswersAsPromised(visitors, histories, later, r.now);
    OnlyHistoriesMatter(histories, histories[r.key := h], Requests(later), r.now, WINDOW);
  }

  lemma TimePassesInMemory(visitors: map<Key, Visitor>, histories: map<Key, seq<int>>, clock: int, now: int)
    requires AllRemembered(visitors, histories, clock) && clock <= now
    ensures AllRemembered(visitors, histories, now)
  {
    forall key | key in visitors.Keys + histories.Keys ensures Remembers(Find(visitors, key), HistoryOf(histories, key), now) {
      LaterStillRemembers(Find(visitors, key), HistoryOf(histories, key), clock, now);
    }
  }

  lemma {:induction false} InOrderWithoutOne(operations: seq<Operation>, n: nat, clock: int)
    requires InOrder(operations, clock) && n < |operations|
    ensures InOrder(Skip(operations, n), clock)
    decreases |operations|
  {
    if n > 0 {
      SkipLater(operations, n);
      InOrderWithoutOne(operations[1..], n - 1, When(operations[0]));
      assert Skip(operations, n)[1..] == Skip(operations[1..], n - 1);
    } else {
      assert Skip(operations, 0) == operations[1..];
    }
  }

  /** Which request an operation is. */
  function Rank(operations: seq<Operation>, n: nat): nat
    requires n <= |operations|
  {
    |Requests(operations[..n])|
  }

  lemma {:induction false} RequestsWithoutOne(operations: seq<Operation>, n: nat)
    requires n < |operations| && operations[n].Ask?
    ensures Rank(operations, n) < |Requests(operations)| && Requests(operations)[Rank(operations, n)] == operations[n].request
    ensures Requests(Skip(operations, n)) == Skip(Requests(operations), Rank(operations, n))
    decreases |operations|
  {
    var first, rest := operations[0], operations[1..];
    RequestsOfFirst(first, rest);
    assert operations == [first] + rest;
    if n == 0 {
      assert Skip(operations, 0) == rest;
      assert Skip(Requests(operations), 0) == Requests(rest);
    } else {
      RequestsWithoutOne(rest, n - 1);
      SkipLater(operations, n);
      RequestsOfFirst(first, Skip(rest, n - 1));
      RequestsOfFirst(first, rest[..n - 1]);
      assert operations[..n] == [first] + rest[..n - 1];
      if first.Ask? {
        SkipLater(Requests(operations), Rank(operations, n));
        assert Requests(operations)[1..] == Requests(rest);
      }
    }
  }

  lemma RequestsOfFirst(first: Operation, rest: seq<Operation>)
    ensures Requests([first] + rest) == (if first.Ask? then [first.request] else []) + Requests(rest)
  {
    assert ([first] + rest)[1..] == rest;
  }

  /** In any run, taking a rejected request out leaves the answers to all other requests as they were. */
  lemma RejectedIsInvisible(operations: seq<Operation>, n: nat, clock: int)
    requires InOrder(operations, clock) && n < |operations| && operations[n].Ask?
    requires Rank(operations, n) < |Answers(map[], operations, clock)| && Answers(map[], operations, clock)[Rank(operations, n)] != 0
    ensures InOrder(Skip(operations, n), clock)
    ensures Answers(map[], Skip(operations, n), clock) == Skip(Answers(map[], operations, clock), Rank(operations, n))
  {
    InOrderWithoutOne(operations, n, clock);
    LocalLimiterRefinesWindow(operations, clock);
    LocalLimiterRefinesWindow(Skip(operations, n), clock);
    RequestsWithoutOne(operations, n);
    PromisedWithoutRejected(map[], Requests(operations), Rank(operations, n), clock, WINDOW);
  }

  /** So a request is admitted exactly when fewer than its limit were admitted under its key in the last sixty seconds. */
  lemma AdmittedIffFewerInAMinute(operations: seq<Operation>, clock: int, n: nat)
    requires InOrder(operations, clock) && n < |Requests(operations)|
    ensures var requests, answers := Requests(operations), Answers(map[], operations, clock);
      && |answers| == |requests|
      && var r := requests[n];
         answers[n] == 0 <==>
           Admitted(requests[..n], answers[..n], r.key, r.now - 60 * 1_000_000_000 + 1, r.now + 1) < r.limit
  {
    LocalLimiterRefinesWindow(operations, clock);
    AdmittedIffFewerInWindow(Requests(operations), clock, WINDOW, n);
  }

  // ---------- Who is remembered ----------

  function VisitorsAfter(visitors: map<Key, Visitor>, operations: seq<Operation>, clock: int): map<Key, Visitor>
    requires InOrder(operations, clock)
    decreases |operations|
  {
    if operations == [] then visitors
    else
      var next := match operations[0]
        case Ask(r) => Visit(visitors, r.key, r.limit, r.now)
        case Cleanup(now) => Sweep(visitors, now);
      VisitorsAfter(next, operations[1..], When(operations[0]))
  }

  /** When the key was asked last, admitted or not. */
  function LastAsked(before: Option<int>, operations: seq<Operation>, key: Key): Option<int>
    decreases |operations|
  {
    if operations == [] then before
    else
      LastAsked(if operations[0].Ask? && operations[0].request.key == key then Some(operations[0].request.now) else before,
                operations[1..], key)
  }

  /** A visitor who is remembered is so with the last visit; one who is forgotten has been idle for over ten minutes. */
  predicate Seen(visitors: map<Key, Visitor>, key: Key, last: Option<int>, clock: int) {
    && (key in visitors ==> last == Some(visitors[key].lastSeen))
    && (key !in visitors && last.Some? ==> clock - last.value > 600 * 1_000_000_000)
  }

  lemma {:induction false} SeenAfter(visitors: map<Key, Visitor>, operations: seq<Operation>, key: Key, last: Option<int>, clock: int)
    returns (end: int)
    requires InOrder(operations, clock) && Seen(visitors, key, last, clock)
    ensures Seen(VisitorsAfter(visitors, operations, clock), key, LastAsked(last, operations, key), end)
    ensures end == if operations == [] then clock else When(operations[|operations| - 1])
    decreases |operations|
  {
    end := clock;
    if operations != [] {
      var next := match operations[0]
        case Ask(r) => Visit(visitors, r.key, r.limit, r.now)
        case Cleanup(now) => Sweep(visitors, now);
      var seen := if operations[0].Ask? && operations[0].request.key == key then Some(operations[0].request.now) else last;
      end := SeenAfter(next, operations[1..], key, seen, When(operations[0]));
    }
  }

  /** After any run, a cleanup keeps exactly the visitors that asked in the last ten minutes. */
  lemma CleanupKeepsTheActive(operations: seq<Operation>, clock: int, now: int, key: Key)
    requires InOrder(operations, clock) && (if operations == [] then clock else When(operations[|operations| - 1])) <= now
    ensures var last := LastAsked(None, operations, key);
      key in Sweep(VisitorsAfter(map[], operations, clock), now)
      <==> last.Some? && now - last.value <= 600 * 1_000_000_000
  {
    var _ := SeenAfter(map[], operations, key, None, clock);
  }
}
