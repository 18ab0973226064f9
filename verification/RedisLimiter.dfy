/** The Redis script: one sorted set per key, shared by all gateway replicas. Times are milliseconds of the Redis clock. */
module RedisLimiter {
  import opened Wrappers
  import opened SlidingWindow

  const WINDOW := 60_000
  const GRACE := 1_000

  /** limiterInstance + ":" + memberCounter */
  datatype Member = Member(instance: nat, number: nat)
  datatype Entry = Entry(score: int, member: Member)

  /** A sorted set with its expiry; entries with equal scores are kept in order of arrival, which the script never observes. */
  datatype SortedSet = SortedSet(entries: seq<Entry>, expiresAt: int)

  datatype Store = Store(sets: map<Key, SortedSet>, counters: map<nat, nat>)

  /** A key whose time to live has passed reads as absent. */
  function Entries(sets: map<Key, SortedSet>, key: Key, now: int): seq<Entry> {
    if key in sets && now < sets[key].expiresAt then sets[key].entries else []
  }

  /** ZREMRANGEBYSCORE key -inf cutoff */
  function RemoveUpTo(entries: seq<Entry>, cutoff: int): seq<Entry> {
    if entries == [] then []
    else if entries[0].score <= cutoff then RemoveUpTo(entries[1..], cutoff)
    else [entries[0]] + RemoveUpTo(entries[1..], cutoff)
  }

  function Without(entries: seq<Entry>, member: Member): seq<Entry> {
    if entries == [] then []
    else if entries[0].member == member then Without(entries[1..], member)
    else [entries[0]] + Without(entries[1..], member)
  }

  function Insert(entries: seq<Entry>, e: Entry): seq<Entry> {
    if entries == [] || e.score < entries[0].score then [e] + entries else [entries[0]] + Insert(entries[1..], e)
  }

  /** ZADD key score member: a member that is already there only gets a new score. */
  function Add(entries: seq<Entry>, e: Entry): seq<Entry> {
    Insert(Without(entries, e.member), e)
  }

  function Max(x: int, y: int): int {
    if x >= y then x else y
  }

  function Answer(sets: map<Key, SortedSet>, key: Key, limit: int, now: int): int
    requires limit >= 1
  {
    var kept := RemoveUpTo(Entries(sets, key, now), now - WINDOW);
    if |kept| >= limit then Max(1, kept[0].score + WINDOW - now) else 0
  }

  function Script(sets: map<Key, SortedSet>, key: Key, member: Member, limit: int, now: int): map<Key, SortedSet>
    requires limit >= 1
  {
    var kept := RemoveUpTo(Entries(sets, key, now), now - WINDOW);
    if |kept| >= limit then sets[key := SortedSet(kept, if key in sets then sets[key].expiresAt else now)]
    else sets[key := SortedSet(Add(kept, Entry(now, member)), now + WINDOW + GRACE)]
  }

  function NextNumber(counters: map<nat, nat>, instance: nat): nat {
    1 + if instance in counters then counters[instance] else 0
  }

  function Visit(s: Store, instance: nat, key: Key, limit: int, now: int): Store
    requires limit >= 1
  {
    var number := NextNumber(s.counters, instance);
    Store(Script(s.sets, key, Member(instance, number), limit, now), s.counters[instance := number])
  }

  class Redis {
    var sets: map<Key, SortedSet>
    var counters: map<nat, nat>

    constructor ()
      ensures sets == map[] && counters == map[]
    {
      sets, counters := map[], map[];
    }

    method RateLimitWait(instance: nat, key: Key, limit: int, now: int) returns (wait: int)
      requires limit >= 1
      modifies this
      ensures wait == Answer(old(sets), key, limit, now)
      ensures Store(sets, counters) == Visit(Store(old(sets), old(counters)), instance, key, limit, now)
    {
      var number := NextNumber(counters, instance);
      counters := counters[instance := number];
      var entries := if key in sets && now < sets[key].expiresAt then sets[key].entries else [];
      entries := RemoveUpTo(entries, now - WINDOW);
      var count := |entries|;
      if count >= limit {
        sets := sets[key := SortedSet(entries, if key in sets then sets[key].expiresAt else now)];
        var oldest := entries[0].score;
        return Max(1, oldest + WINDOW - now);
      }
      entries := Add(entries, Entry(now, Member(instance, number)));
      sets := sets[key := SortedSet(entries, now + WINDOW + GRACE)];
      return 0;
    }
  }

  // ---------- The script agrees with the full history ----------

  /** A request, and the replica it reaches. */
  datatype Call = Call(instance: nat, request: Request)

  function Requests(calls: seq<Call>): seq<Request> {
    seq(|calls|, i requires 0 <= i < |calls| => calls[i].request)
  }

  function Answers(s: Store, calls: seq<Call>, clock: int): seq<int>
    requires Legal(Requests(calls), clock)
    decreases |calls|
  {
    if calls == [] then []
    else
      var c, r := calls[0], calls[0].request;
      assert Requests(calls)[0] == r && Requests(calls)[1..] == Requests(calls[1..]);
      [Answer(s.sets, r.key, r.limit, r.now)] + Answers(Visit(s, c.instance, r.key, r.limit, r.now), calls[1..], r.now)
  }

  function EntriesOf(histories: map<Key, seq<Entry>>, key: Key): seq<Entry> {
    if key in histories then histories[key] else []
  }

  function Scores(entries: seq<Entry>): seq<int> {
    seq(|entries|, i requires 0 <= i < |entries| => entries[i].score)
  }

  function Extended(history: seq<Entry>, limit: int, now: int, member: Member): seq<Entry>
    requires limit >= 1
  {
    if Wait(Scores(history), limit, now, WINDOW) == 0 then history + [Entry(now, member)] else history
  }

  /** `entries` is what is left of `history` when its expired front is cut off. */
  predicate Suffices(entries: seq<Entry>, history: seq<Entry>, cutoff: int) {
    && |entries| <= |history|
    && entries == history[|history| - |entries|..]
    && (forall i | 0 <= i < |history| - |entries| :: history[i].score <= cutoff)
  }

  /** The set keeps what can still matter, at least until it has expired, and its members are old numbers. */
  predicate Remembers(s: Option<SortedSet>, counters: map<nat, nat>, history: seq<Entry>, clock: int) {
    && Ordered(Scores(history)) && Until(Scores(history), clock)
    && (s.Some? ==>
          && Suffices(s.value.entries, history, clock - WINDOW)
          && Until(Scores(history), s.value.expiresAt - WINDOW))
    && (s.None? ==> Until(Scores(history), clock - WINDOW))
    && (forall e | e in history :: e.member.instance in counters && e.member.number <= counters[e.member.instance])
  }

  function Find(sets: map<Key, SortedSet>, key: Key): Option<SortedSet> {
    if key in sets then Some(sets[key]) else None
  }

  predicate AllRemembered(s: Store, histories: map<Key, seq<Entry>>, clock: int) {
    forall key | key in s.sets.Keys + histories.Keys :: Remembers(Find(s.sets, key), s.counters, EntriesOf(histories, key), clock)
  }

  lemma {:induction false} RemoveIsSuffix(entries: seq<Entry>, k: nat, cutoff: int)
    requires k <= |entries|
    requires forall i | 0 <= i < k :: entries[i].score <= cutoff
    requires forall i | k <= i < |entries| :: entries[i].score > cutoff
    ensures RemoveUpTo(entries, cutoff) == entries[k..]
  {
    if entries != [] {
      RemoveIsSuffix(entries[1..], if k == 0 then 0 else k - 1, cutoff);
    }
  }

  /** At its end, with a new member, ZADD appends. */
  lemma {:induction false} AddAppends(entries: seq<Entry>, e: Entry)
    requires forall i | 0 <= i < |entries| :: entries[i].score <= e.score && entries[i].member != e.member
    ensures Without(entries, e.member) == entries && Insert(entries, e) == entries + [e]
  {
    if entries != [] {
      AddAppends(entries[1..], e);
    }
  }

  /** The entries the script reads, once pruned, are exactly the live part of the history. */
  lemma PrunedEntries(sets: map<Key, SortedSet>, counters: map<nat, nat>, key: Key, history: seq<Entry>, clock: int, now: int)
    requires Remembers(Find(sets, key), counters, history, clock) && clock <= now
    ensures var kept := RemoveUpTo(Entries(sets, key, now), now - WINDOW);
            Suffices(kept, history, now - WINDOW) && Scores(kept) == Live(Scores(history), now - WINDOW)
  {
    var entries := Entries(sets, key, now);
    var d := |history| - |entries|;
    var times := Scores(history);
    assert forall i | 0 <= i < d :: times[i] <= now - WINDOW;
    var k := ExpiredCount(times, d, now - WINDOW);
    assert forall i | 0 <= i < |entries| :: entries[i].score == times[d + i];
    RemoveIsSuffix(entries, k - d, now - WINDOW);
    assert RemoveUpTo(entries, now - WINDOW) == history[k..];
    CutIsLive(history, k, now - WINDOW);
  }

  lemma CutIsLive(history: seq<Entry>, k: nat, cutoff: int)
    requires k <= |history| && Live(Scores(history), cutoff) == Scores(history)[k..]
    requires forall i | 0 <= i < k :: Scores(history)[i] <= cutoff
    ensures Suffices(history[k..], history, cutoff) && Scores(history[k..]) == Live(Scores(history), cutoff)
  {
    assert forall i | 0 <= i < k :: history[i].score == Scores(history)[i];
  }

  /** A member with a new number is not in the set, and nothing in the set is newer. */
  lemma MemberIsNew(history: seq<Entry>, counters: map<nat, nat>, instance: nat, d: nat, kept: seq<Entry>, now: int)
    requires forall e | e in history :: e.member.instance in counters && e.member.number <= counters[e.member.instance]
    requires Until(Scores(history), now) && d <= |history| && kept == history[d..]
    ensures forall i | 0 <= i < |kept| :: kept[i].score <= now && kept[i].member != Member(instance, NextNumber(counters, instance))
  {
    forall i | 0 <= i < |kept|
      ensures kept[i].score <= now && kept[i].member != Member(instance, NextNumber(counters, instance))
    {
      assert kept[i] == history[d + i] && history[d + i] in history;
      assert Scores(history)[d + i] == kept[i].score;
    }
  }

  lemma AppendRemembers(entries: seq<Entry>, history: seq<Entry>, counters: map<nat, nat>, clock: int, now: int, instance: nat)
    requires Ordered(Scores(history)) && Until(Scores(history), clock) && clock <= now
    requires Suffices(entries, history, now - WINDOW)
    requires forall e | e in history :: e.member.instance in counters && e.member.number <= counters[e.member.instance]
    ensures var e := Entry(now, Member(instance, NextNumber(counters, instance)));
            Remembers(Some(SortedSet(entries + [e], now + WINDOW + GRACE)), counters[instance := e.member.number], history + [e], now)
  {
    var e := Entry(now, Member(instance, NextNumber(counters, instance)));
    assert Scores(history + [e]) == Scores(history) + [now];
    assert (history + [e])[|history| - |entries|..] == history[|history| - |entries|..] + [e];
  }

  lemma VisitAnswersRight(s: Store, instance: nat, key: Key, history: seq<Entry>, clock: int, limit: int, now: int)
    requires Remembers(Find(s.sets, key), s.counters, history, clock) && clock <= now && limit >= 1
    ensures Answer(s.sets, key, limit, now) == Wait(Scores(history), limit, now, WINDOW)
    ensures var after := Visit(s, instance, key, limit, now);
            Remembers(Some(after.sets[key]), after.counters,
                      Extended(history, limit, now, Member(instance, NextNumber(s.counters, instance))), now)
  {
    var kept := RemoveUpTo(Entries(s.sets, key, now), now - WINDOW);
    PrunedEntries(s.sets, s.counters, key, history, clock, now);
    WaitIsPositiveOrAdmitted(Scores(history), limit, now, WINDOW);
    assert |kept| == |Scores(kept)| && (kept != [] ==> Scores(kept)[0] == kept[0].score);
    if |kept| < limit {
      MemberIsNew(history, s.counters, instance, |history| - |kept|, kept, now);
      AddAppends(kept, Entry(now, Member(instance, NextNumber(s.counters, instance))));
      AppendRemembers(kept, history, s.counters, clock, now, instance);
    }
  }

  lemma LaterStillRemembers(s: Option<SortedSet>, counters: map<nat, nat>, instance: nat, history: seq<Entry>, clock: int, now: int)
    requires Remembers(s, counters, history, clock) && clock <= now
    ensures Remembers(s, counters[instance := NextNumber(counters, instance)], history, now)
  {
  }

  lemma VisitKeepsMemory(s: Store, histories: map<Key, seq<Entry>>, clock: int, instance: nat, r: Request)
    requires AllRemembered(s, histories, clock) && clock <= r.now && r.limit >= 1
    ensures var h := EntriesOf(histories, r.key);
            var member := Member(instance, NextNumber(s.counters, instance));
            AllRemembered(Visit(s, instance, r.key, r.limit, r.now), histories[r.key := Extended(h, r.limit, r.now, member)], r.now)
  {
    var h := EntriesOf(histories, r.key);
    var next := histories[r.key := Extended(h, r.limit, r.now, Member(instance, NextNumber(s.counters, instance)))];
    var after := Visit(s, instance, r.key, r.limit, r.now);
    assert Remembers(Find(s.sets, r.key), s.counters, h, clock);
    VisitAnswersRight(s, instance, r.key, h, clock, r.limit, r.now);
    forall other | other in after.sets.Keys + next.Keys
      ensures Remembers(Find(after.sets, other), after.counters, EntriesOf(next, other), r.now)
    {
      if other != r.key {
        assert Find(after.sets, other) == Find(s.sets, other) && EntriesOf(next, other) == EntriesOf(histories, other);
        LaterStillRemembers(Find(s.sets, other), s.counters, instance, EntriesOf(histories, other), clock, r.now);
      }
    }
  }

  /** The times of every admission, key by key. */
  function Times(histories: map<Key, seq<Entry>>): map<Key, seq<int>> {
    map key | key in histories :: Scores(histories[key])
  }

  lemma TimesOfExtended(histories: map<Key, seq<Entry>>, key: Key, limit: int, now: int, member: Member)
    requires limit >= 1
    ensures var h := EntriesOf(histories, key);
            Times(histories[key := Extended(h, limit, now, member)]) == Times(histories)[key := Record(Scores(h), limit, now, WINDOW)]
  {
    var h := EntriesOf(histories, key);
    assert Scores(h + [Entry(now, member)]) == Scores(h) + [now];
  }

  /** Expiry of keys and shared use by many replicas never change an answer. */
  lemma {:induction false} AnswersAsPromised(s: Store, histories: map<Key, seq<Entry>>, calls: seq<Call>, clock: int)
    requires Legal(Requests(calls), clock) && AllRemembered(s, histories, clock)
    ensures Answers(s, calls, clock) == Promised(Times(histories), Requests(calls), clock, WINDOW)
    decreases |calls|
  {
    if calls != [] {
      var c, r := calls[0], calls[0].request;
      var h, member := EntriesOf(histories, r.key), Member(c.instance, NextNumber(s.counters, c.instance));
      assert Requests(calls)[0] == r && Requests(calls)[1..] == Requests(calls[1..]);
      assert Remembers(Find(s.sets, r.key), s.counters, h, clock);
      VisitAnswersRight(s, c.instance, r.key, h, clock, r.limit, r.now);
      VisitKeepsMemory(s, histories, clock, c.instance, r);
      TimesOfExtended(histories, r.key, r.limit, r.now, member);
      assert HistoryOf(Times(histories), r.key) == Scores(h);
      AnswersAsPromised(Visit(s, c.instance, r.key, r.limit, r.now), histories[r.key := Extended(h, r.limit, r.now, member)], calls[1..], r.now);
    }
  }

  lemma ScriptRefinesWindow(calls: seq<Call>, clock: int)
    requires Legal(Requests(calls), clock)
    ensures Answers(Store(map[], map[]), calls, clock) == Promised(map[], Requests(calls), clock, WINDOW)
  {
    AnswersAsPromised(Store(map[], map[]), map[], calls, clock);
    assert Times(map[]) == map[];
  }

  lemma {:induction false} KeptAreLive(entries: seq<Entry>, cutoff: int)
    ensures forall e | e in RemoveUpTo(entries, cutoff) :: e.score > cutoff
  {
    if entries != [] {
      KeptAreLive(entries[1..], cutoff);
    }
  }

  /** The script's lower bound of one millisecond never changes a wait, whatever is stored. */
  lemma LowerBoundIsIdle(sets: map<Key, SortedSet>, key: Key, limit: int, now: int)
    requires limit >= 1
    ensures var kept := RemoveUpTo(Entries(sets, key, now), now - WINDOW);
            Answer(sets, key, limit, now) == if |kept| >= limit then kept[0].score + WINDOW - now else 0
  {
    KeptAreLive(Entries(sets, key, now), now - WINDOW);
  }

  // ---------- Rejected requests leave no trace ----------

  lemma TimePassesInMemory(s: Store, histories: map<Key, seq<Entry>>, clock: int, now: int)
    requires AllRemembered(s, histories, clock) && clock <= now
    ensures AllRemembered(s, histories, now)
  {
  }

  lemma RejectedKeepsMemory(s: Store, histories: map<Key, seq<Entry>>, clock: int, instance: nat, r: Request)
    requires AllRemembered(s, histories, clock) && clock <= r.now && r.limit >= 1
    requires Answer(s.sets, r.key, r.limit, r.now) != 0
    ensures AllRemembered(Visit(s, instance, r.key, r.limit, r.now), histories[r.key := EntriesOf(histories, r.key)], r.now)
  {
    var h := EntriesOf(histories, r.key);
    assert Remembers(Find(s.sets, r.key), s.counters, h, clock);
    VisitAnswersRight(s, instance, r.key, h, clock, r.limit, r.now);
    VisitKeepsMemory(s, histories, clock, instance, r);
  }

  lemma SameTimes(histories: map<Key, seq<Entry>>, key: Key)
    ensures forall k :: HistoryOf(Times(histories), k) == HistoryOf(Times(histories[key := EntriesOf(histories, key)]), k)
  {
    assert Scores([]) == [];
  }

  /** A rejected call prunes the set and uses up a member number; no later answer of any replica depends on that. */
  lemma RejectedVisitIsInvisible(s: Store, histories: map<Key, seq<Entry>>, clock: int, c: Call, later: seq<Call>)
    requires AllRemembered(s, histories, clock) && clock <= c.request.now && c.request.limit >= 1
    requires Legal(Requests(later), c.request.now)
    requires Answer(s.sets, c.request.key, c.request.limit, c.request.now) != 0
    ensures var r := c.request;
            Answers(Visit(s, c.instance, r.key, r.limit, r.now), later, r.now) == Answers(s, later, r.now)
  {
    var r := c.request;
    var same := histories[r.key := EntriesOf(histories, r.key)];
    RejectedKeepsMemory(s, histories, clock, c.instance, r);
    TimePassesInMemory(s, histories, clock, r.now);
    AnswersAsPromised(Visit(s, c.instance, r.key, r.limit, r.now), same, later, r.now);
    AnswersAsPromised(s, histories, later, r.now);
    SameTimes(histories, r.key);
    OnlyHistoriesMatter(Times(histories), Times(same), Requests(later), r.now, WINDOW);
  }

  /** In any run, taking a rejected call out leaves the answers to all other calls as they were. */
  lemma RejectedIsInvisible(calls: seq<Call>, n: nat, clock: int)
    requires Legal(Requests(calls), clock) && n < |calls|
    requires |Answers(Store(map[], map[]), calls, clock)| == |calls| && Answers(Store(map[], map[]), calls, clock)[n] != 0
    ensures Legal(Requests(Skip(calls, n)), clock)
    ensures Answers(Store(map[], map[]), Skip(calls, n), clock) == Skip(Answers(Store(map[], map[]), calls, clock), n)
  {
    assert Requests(Skip(calls, n)) == Skip(Requests(calls), n);
    ScriptRefinesWindow(calls, clock);
    PromisedWithoutRejected(map[], Requests(calls), n, clock, WINDOW);
    ScriptRefinesWindow(Skip(calls, n), clock);
  }

  /** So a request is admitted, by whatever replica, exactly when fewer than its limit were admitted under its key in the
      last sixty seconds. */
  lemma AdmittedIffFewerInAMinute(calls: seq<Call>, clock: int, n: nat)
    requires Legal(Requests(calls), clock) && n < |calls|
    ensures var requests, answers := Requests(calls), Answers(Store(map[], map[]), calls, clock);
      && |answers| == |requests|
      && var r := requests[n];
         answers[n] == 0 <==> Admitted(requests[..n], answers[..n], r.key, r.now - 60_000 + 1, r.now + 1) < r.limit
  {
    ScriptRefinesWindow(calls, clock);
    AdmittedIffFewerInWindow(Requests(calls), clock, WINDOW, n);
  }
}
