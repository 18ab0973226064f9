/** Nothing gets stuck: from every reachable state, every committed event can still reach its recipient. */
module DeliveryProgress {
  import opened Wrappers
  import opened Delivery
  import opened DeliveryGuarantees
  import opened DeliveryServices

  function Undelivered(rows: map<EventId, Row>): set<EventId> {
    set id | id in rows && !rows[id].delivered
  }

  // ---------- Workers that hold locks can be aborted ----------

  lemma {:induction false} AbortAll(s: System) returns (more: seq<Action>)
    ensures Run(s, more) == s.(workers := map[])
    decreases |s.workers|
  {
    if s.workers == map[] {
      more := [];
    } else {
      var w :| w in s.workers;
      var rest := AbortAll(Step(s, Abort(w)));
      more := [Abort(w)] + rest;
      RunCons(s, Abort(w), rest);
    }
  }

  // ---------- A batch of the oldest rows ----------

  /** The first at most `n` of the pool by creation time. */
  predicate OldestOf(rows: map<EventId, Row>, pool: set<EventId>, n: nat, batch: seq<EventId>) {
    && pool <= rows.Keys && |batch| <= n
    && (forall i | 0 <= i < |batch| :: batch[i] in pool)
    && (forall i, j | 0 <= i < j < |batch| :: batch[i] != batch[j])
    && (forall i, j | 0 <= i < j < |batch| :: rows[batch[i]].createdAt <= rows[batch[j]].createdAt)
    && (forall id | id in pool && id !in batch ::
          |batch| == n && forall i | 0 <= i < |batch| :: rows[batch[i]].createdAt <= rows[id].createdAt)
  }

  lemma {:induction false} Oldest(rows: map<EventId, Row>, pool: set<EventId>) returns (first: EventId)
    requires pool != {} && pool <= rows.Keys
    ensures first in pool && forall id | id in pool :: rows[first].createdAt <= rows[id].createdAt
    decreases |pool|
  {
    first :| first in pool;
    if pool != {first} {
      var other := Oldest(rows, pool - {first});
      if rows[other].createdAt < rows[first].createdAt {
        first := other;
      }
    }
  }

  lemma {:induction false} PickOldest(rows: map<EventId, Row>, pool: set<EventId>, n: nat) returns (batch: seq<EventId>)
    requires pool <= rows.Keys
    ensures OldestOf(rows, pool, n, batch) && (pool != {} && n > 0 ==> batch != [])
    decreases n
  {
    if n == 0 || pool == {} {
      batch := [];
    } else {
      var first := Oldest(rows, pool);
      var rest := PickOldest(rows, pool - {first}, n - 1);
      batch := [first] + rest;
      FirstThenRest(rows, pool, n, first, rest);
    }
  }

  lemma FirstThenRest(rows: map<EventId, Row>, pool: set<EventId>, n: nat, first: EventId, rest: seq<EventId>)
    requires n > 0 && pool <= rows.Keys && first in pool && OldestOf(rows, pool - {first}, n - 1, rest)
    requires forall id | id in pool :: rows[first].createdAt <= rows[id].createdAt
    ensures OldestOf(rows, pool, n, [first] + rest)
  {
  }

  lemma {:induction false} LateEnough(rows: map<EventId, Row>, pool: set<EventId>) returns (now: int)
    requires pool <= rows.Keys
    ensures forall id | id in pool :: rows[id].nextAttempt <= now
    decreases |pool|
  {
    now := 0;
    if pool != {} {
      var id :| id in pool;
      now := LateEnough(rows, pool - {id});
      if now < rows[id].nextAttempt {
        now := rows[id].nextAttempt;
      }
    }
  }

  lemma BatchIsSelected(s: System, batch: seq<EventId>, now: int)
    requires s.workers == map[] && OldestOf(s.rows, Undelivered(s.rows), BATCH_SIZE, batch)
    requires forall id | id in Undelivered(s.rows) :: s.rows[id].nextAttempt <= now
    ensures Selects(s, batch, now)
  {
    assert LockedBy(s.workers) == {};
    assert forall id :: Eligible(s, id, now) <==> id in Undelivered(s.rows);
  }

  // ---------- A pass without failures ----------

  function AllStored(n: nat): seq<Publication> {
    seq(n, _ => Stored)
  }

  predicate MarksDelivered(rows: map<EventId, Row>, batch: seq<EventId>, writes: map<EventId, Row>) {
    && writes.Keys == (set id | id in batch)
    && (forall id | id in writes :: id in rows && writes[id] == rows[id].(delivered := true))
  }

  lemma MarkOneMore(rows: map<EventId, Row>, batch: seq<EventId>, i: nat, writes: map<EventId, Row>)
    requires i < |batch| && batch[i] in rows && MarksDelivered(rows, batch[..i], writes)
    ensures MarksDelivered(rows, batch[..i + 1], writes[batch[i] := Marked(rows[batch[i]], Stored, 0)])
  {
    assert batch[..i + 1] == batch[..i] + [batch[i]];
  }

  lemma BeginPass(s: System, w: nat, batch: seq<EventId>, now: int)
    requires w !in s.workers && Selects(s, batch, now)
    ensures Run(Step(s, Begin(w, batch, now)), Publications(w, AllStored(0), now)) == Midway(s, w, batch, 0, map[], s.stream)
  {
    assert Publications(w, AllStored(0), now) == [] && batch[0..] == batch;
  }

  lemma StoreOneMore(s: System, w: nat, batch: seq<EventId>, now: int, i: nat, writes: map<EventId, Row>, stream: seq<Message>)
    requires i < |batch| && batch[i] in s.rows
    requires Run(Step(s, Begin(w, batch, now)), Publications(w, AllStored(i), now)) == Midway(s, w, batch, i, writes, stream)
    ensures Run(Step(s, Begin(w, batch, now)), Publications(w, AllStored(i + 1), now))
         == Midway(s, w, batch, i + 1, writes[batch[i] := Marked(s.rows[batch[i]], Stored, 0)],
                   stream + [Published(batch[i], s.rows[batch[i]].event)])
  {
    assert AllStored(|batch|)[..i] == AllStored(i) && AllStored(|batch|)[..i + 1] == AllStored(i + 1);
    ExtendPass(s, w, batch, AllStored(|batch|), i, writes, stream, now);
  }

  lemma {:induction false} PassSoFar(s: System, w: nat, batch: seq<EventId>, now: int, i: nat)
    returns (writes: map<EventId, Row>, stream: seq<Message>)
    requires w !in s.workers && Selects(s, batch, now) && i <= |batch|
    ensures Run(Step(s, Begin(w, batch, now)), Publications(w, AllStored(i), now)) == Midway(s, w, batch, i, writes, stream)
    ensures MarksDelivered(s.rows, batch[..i], writes)
    decreases i
  {
    if i == 0 {
      BeginPass(s, w, batch, now);
      writes, stream := map[], s.stream;
    } else {
      var id := batch[i - 1];
      assert Eligible(s, id, now);
      writes, stream := PassSoFar(s, w, batch, now, i - 1);
      StoreOneMore(s, w, batch, now, i - 1, writes, stream);
      MarkOneMore(s.rows, batch, i - 1, writes);
      writes, stream := writes[id := Marked(s.rows[id], Stored, 0)], stream + [Published(id, s.rows[id].event)];
    }
  }

  /** Such a pass delivers its batch and leaves no lock behind. */
  lemma PassDelivers(s: System, w: nat, batch: seq<EventId>, now: int) returns (more: seq<Action>)
    requires s.workers == map[] && Selects(s, batch, now)
    ensures var after := Run(s, more);
            after.workers == map[] && Undelivered(after.rows) == Undelivered(s.rows) - set id | id in batch
  {
    var outcomes := AllStored(|batch|);
    var writes, stream := PassSoFar(s, w, batch, now, |batch|);
    assert batch[..|batch|] == batch;
    FinishPass(s, w, batch, outcomes, writes, stream, now);
    more := FullPass(w, batch, outcomes, now);
  }

  // ---------- Every row can be published, and every published event notified ----------

  lemma {:induction false} CanBePublished(s: System, id: EventId) returns (more: seq<Action>)
    requires Inv(s) && s.workers == map[] && id in s.rows
    ensures Published(id, s.rows[id].event) in Run(s, more).stream
    decreases |Undelivered(s.rows)|
  {
    if s.rows[id].delivered {
      more := [];
    } else {
      var pool := Undelivered(s.rows);
      assert id in pool;
      var batch := PickOldest(s.rows, pool, BATCH_SIZE);
      var now := LateEnough(s.rows, pool);
      BatchIsSelected(s, batch, now);
      var pass := PassDelivers(s, 0, batch, now);
      var after := Run(s, pass);
      RunOnlyGrows(s, pass);
      FewerUndelivered(pool, batch);
      var rest := CanBePublished(after, id);
      more := pass + rest;
      RunAppend(s, pass, rest);
    }
  }

  lemma FewerUndelivered(pool: set<EventId>, batch: seq<EventId>)
    requires batch != [] && forall i | 0 <= i < |batch| :: batch[i] in pool
    ensures |pool - set id | id in batch| < |pool|
  {
    var taken := set id | id in batch;
    assert batch[0] in taken && taken <= pool;
    assert pool == (pool - taken) + taken;
  }

  lemma CommittedCanBePublished(actions: seq<Action>, id: EventId) returns (more: seq<Action>)
    requires id in Run(START, actions).rows
    ensures var s, after := Run(START, actions), Run(START, actions + more);
            id in after.rows && after.rows[id].event == s.rows[id].event && Published(id, s.rows[id].event) in after.stream
  {
    var s := Run(START, actions);
    RunKeepsInv(START, actions);
    var aborts := AbortAll(s);
    RunKeepsInv(s, aborts);
    var passes := CanBePublished(Run(s, aborts), id);
    RunOnlyGrows(Run(s, aborts), passes);
    more := aborts + passes;
    RunAppend(s, aborts, passes);
    RunAppend(START, actions, more);
  }

  /** Whatever happened before, a committed event can still reach its recipient. */
  lemma CommittedCanBeNotified(actions: seq<Action>, id: EventId, user: string) returns (more: seq<Action>)
    requires var s := Run(START, actions);
             id in s.rows && s.rows[id].event.eventType != "" && s.rows[id].event.recipient == To(user)
    ensures id in Run(START, actions + more).inbox
  {
    var first := CommittedCanBePublished(actions, id);
    PublishedCanBeNotified(actions + first, id, user);
    var last :| id in Run(START, actions + first + last).inbox;
    more := first + last;
    assert actions + more == actions + first + last;
  }
}
