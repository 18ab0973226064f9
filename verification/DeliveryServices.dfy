/** The outbox worker and the notification consumer as programs, each shown to be a run of the protocol. */
module DeliveryServices {
  import opened Wrappers
  import opened Delivery
  import opened DeliveryGuarantees

  /** One pass of the worker that is not interrupted. */
  function FullPass(w: nat, batch: seq<EventId>, outcomes: seq<Publication>, now: int): seq<Action> {
    [Begin(w, batch, now)] + Publications(w, outcomes, now) + [Commit(w)]
  }

  function Publications(w: nat, outcomes: seq<Publication>, now: int): seq<Action> {
    seq(|outcomes|, i requires 0 <= i < |outcomes| => Publish(w, outcomes[i], now))
  }

  /** A message handed to a consumer; `lookup` tells whether the identity service answers. */
  datatype Arrival = Arrival(at: nat, lookup: bool)

  /** Steps that do not apply, such as claiming an event that was already claimed, do nothing. */
  function Handling(c: nat, d: Arrival): seq<Action> {
    [Fetch(c, d.at), Validate(c)] + (if d.lookup then [Precheck(c), Claim(c)] + [Push(c), Settle(c)] else [Precheck(c), Settle(c)] + [Drop(c)])
  }

  function Handlings(c: nat, arrivals: seq<Arrival>): seq<Action> {
    if arrivals == [] then []
    else Handlings(c, arrivals[..|arrivals| - 1]) + Handling(c, arrivals[|arrivals| - 1])
  }

  /** What the worker has done when it has published the first `i` rows of its batch. */
  function Midway(start: System, w: nat, batch: seq<EventId>, i: nat, writes: map<EventId, Row>, stream: seq<Message>): System
    requires i <= |batch|
  {
    start.(workers := start.workers[w := Batch(batch[i..], writes)], stream := stream)
  }

  lemma PublishNext(start: System, w: nat, batch: seq<EventId>, i: nat, writes: map<EventId, Row>, stream: seq<Message>,
                    outcome: Publication, now: int)
    requires i < |batch| && batch[i] in start.rows
    ensures Step(Midway(start, w, batch, i, writes, stream), Publish(w, outcome, now))
         == Midway(start, w, batch, i + 1, writes[batch[i] := Marked(start.rows[batch[i]], outcome, now)],
                   if outcome == Failed then stream else stream + [Published(batch[i], start.rows[batch[i]].event)])
  {
    assert batch[i..][1..] == batch[i + 1..];
    var s := Midway(start, w, batch, i, writes, stream);
    assert s.workers[w].todo[0] == batch[i];
    var next := Midway(start, w, batch, i + 1, writes[batch[i] := Marked(start.rows[batch[i]], outcome, now)], stream);
    assert s.workers[w := next.workers[w]] == next.workers;
  }

  lemma ExtendPass(start: System, w: nat, batch: seq<EventId>, outcomes: seq<Publication>, i: nat,
                   writes: map<EventId, Row>, stream: seq<Message>, now: int)
    requires i < |batch| == |outcomes| && batch[i] in start.rows
    requires Run(Step(start, Begin(w, batch, now)), Publications(w, outcomes[..i], now)) == Midway(start, w, batch, i, writes, stream)
    ensures Run(Step(start, Begin(w, batch, now)), Publications(w, outcomes[..i + 1], now))
         == Midway(start, w, batch, i + 1, writes[batch[i] := Marked(start.rows[batch[i]], outcomes[i], now)],
                   if outcomes[i] == Failed then stream else stream + [Published(batch[i], start.rows[batch[i]].event)])
  {
    var begun := Step(start, Begin(w, batch, now));
    assert Publications(w, outcomes[..i + 1], now) == Publications(w, outcomes[..i], now) + [Publish(w, outcomes[i], now)];
    RunAppend(begun, Publications(w, outcomes[..i], now), [Publish(w, outcomes[i], now)]);
    RunCons(Run(begun, Publications(w, outcomes[..i], now)), Publish(w, outcomes[i], now), []);
    PublishNext(start, w, batch, i, writes, stream, outcomes[i], now);
  }

  lemma CommitLast(start: System, w: nat, batch: seq<EventId>, writes: map<EventId, Row>, stream: seq<Message>)
    requires w !in start.workers
    ensures Step(Midway(start, w, batch, |batch|, writes, stream), Commit(w)) == start.(rows := start.rows + writes, stream := stream)
  {
    assert start.workers[w := Batch([], writes)] - {w} == start.workers;
  }

  lemma FinishPass(start: System, w: nat, batch: seq<EventId>, outcomes: seq<Publication>,
                   writes: map<EventId, Row>, stream: seq<Message>, now: int)
    requires w !in start.workers
    requires Run(Step(start, Begin(w, batch, now)), Publications(w, outcomes, now)) == Midway(start, w, batch, |batch|, writes, stream)
    ensures Run(start, FullPass(w, batch, outcomes, now)) == start.(rows := start.rows + writes, stream := stream)
  {
    var begun, publications := Step(start, Begin(w, batch, now)), Publications(w, outcomes, now);
    var last := Midway(start, w, batch, |batch|, writes, stream);
    assert FullPass(w, batch, outcomes, now) == [Begin(w, batch, now)] + (publications + [Commit(w)]);
    RunCons(start, Begin(w, batch, now), publications + [Commit(w)]);
    RunAppend(begun, publications, [Commit(w)]);
    RunCons(last, Commit(w), []);
    CommitLast(start, w, batch, writes, stream);
  }

  /** The net effect of handling one redelivered or new message. */
  function AfterHandling(s: System, c: nat, d: Arrival): System
    requires d.at < |s.stream|
  {
    var m := s.stream[d.at];
    if !WellFormed(m) then s.(settled := s.settled[d.at := Termed], consumers := s.consumers[c := Idle])
    else if !Notifies(s, d.at) then s.(settled := s.settled[d.at := Acked], consumers := s.consumers[c := Idle])
    else if !d.lookup then s.(consumers := s.consumers[c := Idle])
    else
      var e := m.payload;
      s.(inbox := s.inbox + {e.id},
         notifications := s.notifications + [Notification(e.id, e.event.recipient.user, e.event.eventType)],
         pushes := s.pushes + [e.id],
         settled := s.settled[d.at := Acked], consumers := s.consumers[c := Idle])
  }

  predicate Deliverable(s: System, c: nat, at: nat) {
    WorkOf(s, c).Idle? && at < |s.stream| && at !in s.settled
  }

  lemma RunOfTwo(s: System, a: Action, b: Action, rest: seq<Action>)
    ensures Run(s, [a, b] + rest) == Run(Step(Step(s, a), b), rest)
  {
    assert [a, b] + rest == [a] + ([b] + rest);
    RunCons(s, a, [b] + rest);
    RunCons(Step(s, a), b, rest);
  }

  predicate Concerns(a: Action, c: nat) {
    a == Validate(c) || a == Precheck(c) || a == Claim(c) || a == Push(c) || a == Settle(c) || a == Drop(c)
  }

  /** A consumer that holds no message does nothing until it fetches one. */
  lemma IdleStep(s: System, c: nat, a: Action)
    requires c in s.consumers && s.consumers[c] == Idle && Concerns(a, c)
    ensures Step(s, a) == s
  {
    assert s.consumers[c := Idle] == s.consumers;
  }

  lemma {:induction false} IdleRun(s: System, c: nat, actions: seq<Action>)
    requires c in s.consumers && s.consumers[c] == Idle
    requires forall a | a in actions :: Concerns(a, c)
    ensures Run(s, actions) == s
    decreases |actions|
  {
    if actions != [] {
      IdleStep(s, c, actions[0]);
      IdleRun(s, c, actions[1..]);
    }
  }

  lemma PushThenSettle(s: System, c: nat, at: nat)
    requires at < |s.stream| && s.stream[at].payload.Envelope? && (WorkOf(s, c) == Fresh(at) || WorkOf(s, c) == Done(at))
    ensures Step(Step(s, Push(c)), Settle(c)) ==
            s.(pushes := if WorkOf(s, c) == Fresh(at) then s.pushes + [s.stream[at].payload.id] else s.pushes,
               settled := s.settled[at := Acked], consumers := s.consumers[c := Idle])
  {
    if WorkOf(s, c) == Fresh(at) {
      assert Step(s, Push(c)) == s.(pushes := s.pushes + [s.stream[at].payload.id], consumers := s.consumers[c := Done(at)]);
    } else {
      assert Step(s, Push(c)) == s;
    }
  }

  lemma SettleThenDrop(s: System, c: nat, at: nat)
    requires WorkOf(s, c) == Unclaimed(at) || WorkOf(s, c) == Done(at)
    ensures Step(Step(s, Settle(c)), Drop(c)) ==
            s.(settled := if WorkOf(s, c) == Done(at) then s.settled[at := Acked] else s.settled, consumers := s.consumers[c := Idle])
  {
    if WorkOf(s, c) == Done(at) {
      assert Step(s, Settle(c)) == s.(settled := s.settled[at := Acked], consumers := s.consumers[c := Idle]);
    } else {
      assert Step(s, Settle(c)) == s;
    }
  }

  /** A consumer that has validated message `at`. */
  function Validated(s: System, c: nat, at: nat): System {
    s.(consumers := s.consumers[c := Accepted(at)])
  }

  /** ... and then claimed its event, unless there was nothing to claim. */
  function Claimed(s: System, c: nat, at: nat): System
    requires at < |s.stream| && WellFormed(s.stream[at])
  {
    var e := s.stream[at].payload;
    if !Notifies(s, at) then s.(consumers := s.consumers[c := Done(at)])
    else s.(inbox := s.inbox + {e.id},
            notifications := s.notifications + [Notification(e.id, e.event.recipient.user, e.event.eventType)],
            consumers := s.consumers[c := Fresh(at)])
  }

  lemma ValidatedByRun(s: System, c: nat, at: nat, rest: seq<Action>)
    requires Deliverable(s, c, at) && WellFormed(s.stream[at])
    ensures Run(s, [Fetch(c, at), Validate(c)] + rest) == Run(Validated(s, c, at), rest)
  {
    FetchThenValidate(s, c, at);
    RunOfTwo(s, Fetch(c, at), Validate(c), rest);
  }

  lemma ClaimedByRun(s: System, c: nat, at: nat, rest: seq<Action>)
    requires at < |s.stream| && WellFormed(s.stream[at])
    ensures Run(Validated(s, c, at), [Precheck(c), Claim(c)] + rest) == Run(Claimed(s, c, at), rest)
  {
    var s2 := Validated(s, c, at);
    PrecheckOnly(s2, c, at);
    ClaimOnly(Step(s2, Precheck(c)), c, at);
    RunOfTwo(s2, Precheck(c), Claim(c), rest);
    assert Step(Step(s2, Precheck(c)), Claim(c)).consumers == Claimed(s, c, at).consumers;
  }

  lemma FinishedByRun(s: System, c: nat, d: Arrival)
    requires d.at < |s.stream| && WellFormed(s.stream[d.at]) && d.lookup
    ensures Run(Claimed(s, c, d.at), [Push(c), Settle(c)]) == AfterHandling(s, c, d)
  {
    var s4 := Claimed(s, c, d.at);
    PushThenSettle(s4, c, d.at);
    assert [Push(c), Settle(c)] + [] == [Push(c), Settle(c)];
    RunOfTwo(s4, Push(c), Settle(c), []);
    assert s4.consumers[c := Idle] == s.consumers[c := Idle];
  }

  lemma PostponedByRun(s: System, c: nat, d: Arrival)
    requires d.at < |s.stream| && WellFormed(s.stream[d.at]) && !d.lookup
    ensures Run(Validated(s, c, d.at), [Precheck(c), Settle(c)] + [Drop(c)]) == AfterHandling(s, c, d)
  {
    var s2 := Validated(s, c, d.at);
    PrecheckOnly(s2, c, d.at);
    var s3 := Step(s2, Precheck(c));
    SettleThenDrop(s3, c, d.at);
    RunOfTwo(s2, Precheck(c), Settle(c), [Drop(c)]);
    RunCons(Step(s3, Settle(c)), Drop(c), []);
    assert s3.consumers[c := Idle] == s.consumers[c := Idle];
  }

  /** Handling a message is a run of protocol steps; a message nobody may be given is not handled at all. */
  lemma HandlingIsARun(s: System, c: nat, d: Arrival)
    requires c in s.consumers && s.consumers[c] == Idle
    ensures Run(s, Handling(c, d)) == if Deliverable(s, c, d.at) then AfterHandling(s, c, d) else s
  {
    if !Deliverable(s, c, d.at) {
      assert Step(s, Fetch(c, d.at)) == s;
      IdleRun(s, c, Handling(c, d)[1..]);
    } else if !WellFormed(s.stream[d.at]) {
      FetchThenValidate(s, c, d.at);
      var rest := Handling(c, d)[2..];
      RunOfTwo(s, Fetch(c, d.at), Validate(c), rest);
      IdleRun(AfterHandling(s, c, d), c, rest);
      assert Handling(c, d) == [Fetch(c, d.at), Validate(c)] + rest;
    } else {
      ValidatedByRun(s, c, d.at, Handling(c, d)[2..]);
      assert Handling(c, d) == [Fetch(c, d.at), Validate(c)] + Handling(c, d)[2..];
      if d.lookup {
        ClaimedByRun(s, c, d.at, [Push(c), Settle(c)]);
        FinishedByRun(s, c, d);
      } else {
        PostponedByRun(s, c, d);
      }
    }
  }

  class Deployment {
    var rows: map<EventId, Row>
    var workers: map<nat, Batch>
    var stream: seq<Message>
    var settled: map<nat, Settlement>
    var consumers: map<nat, Work>
    var inbox: set<EventId>
    var notifications: seq<Notification>
    var pushes: seq<EventId>

    constructor ()
      ensures Snapshot() == START
    {
      rows, workers, stream, settled, consumers := map[], map[], [], map[], map[];
      inbox, notifications, pushes := {}, [], [];
    }

    function Snapshot(): System
      reads this
    {
      System(rows, workers, stream, settled, consumers, inbox, notifications, pushes)
    }

    /** OutboxWorker.deliver: publishes a locked batch row by row and commits the marks at the end. */
    method Deliver(w: nat, batch: seq<EventId>, outcomes: seq<Publication>, now: int)
      requires w !in workers && Selects(Snapshot(), batch, now) && |outcomes| == |batch|
      modifies this`rows, this`stream
      ensures Snapshot() == Run(old(Snapshot()), FullPass(w, batch, outcomes, now))
    {
      ghost var start := Snapshot();
      var writes := PublishBatch(w, batch, outcomes, now);
      rows := rows + writes;
      FinishPass(start, w, batch, outcomes, writes, stream, now);
    }

    /** The loop over the batch: publishes each row and collects what is to be written. */
    method PublishBatch(w: nat, batch: seq<EventId>, outcomes: seq<Publication>, now: int) returns (writes: map<EventId, Row>)
      requires w !in workers && Selects(Snapshot(), batch, now) && |outcomes| == |batch|
      modifies this`stream
      ensures Run(Step(old(Snapshot()), Begin(w, batch, now)), Publications(w, outcomes, now))
           == Midway(old(Snapshot()), w, batch, |batch|, writes, stream)
    {
      ghost var start := Snapshot();
      writes := map[];
      var i := 0;
      while i < |batch|
        invariant 0 <= i <= |batch|
        invariant Run(Step(start, Begin(w, batch, now)), Publications(w, outcomes[..i], now)) == Midway(start, w, batch, i, writes, stream)
      {
        var id := batch[i];
        assert Eligible(start, id, now);
        ExtendPass(start, w, batch, outcomes, i, writes, stream, now);
        var row := PublishRow(id, outcomes[i], now);
        writes := writes[id := row];
        i := i + 1;
      }
      assert outcomes[..i] == outcomes;
    }

    /** One row: the message may be on the stream although the publisher saw an error. */
    method PublishRow(id: EventId, outcome: Publication, now: int) returns (row: Row)
      requires id in rows
      modifies this`stream
      ensures row == Marked(rows[id], outcome, now)
      ensures stream == if outcome == Failed then old(stream) else old(stream) + [Published(id, rows[id].event)]
    {
      row := rows[id];
      if outcome != Failed {
        stream := stream + [Published(id, row.event)];
      }
      if outcome == Stored {
        row := row.(delivered := true);
      } else {
        row := row.(attempts := row.attempts + 1, nextAttempt := now + RETRY_SECONDS);
      }
    }

    /** NatsConsumer.consume: acknowledges, postpones or terminates every message JetStream hands out. */
    method Consume(c: nat, arrivals: seq<Arrival>)
      requires c in consumers && consumers[c] == Idle
      modifies this`settled, this`inbox, this`notifications, this`pushes
      ensures Snapshot() == Run(old(Snapshot()), Handlings(c, arrivals))
    {
      ghost var start := Snapshot();
      var i := 0;
      while i < |arrivals|
        invariant 0 <= i <= |arrivals|
        invariant Snapshot() == Run(start, Handlings(c, arrivals[..i]))
      {
        ghost var before := Snapshot();
        var d := arrivals[i];
        HandlingIsARun(before, c, d);
        assert arrivals[..i + 1][..i] == arrivals[..i];
        RunAppend(start, Handlings(c, arrivals[..i]), Handling(c, d));
        if d.at < |stream| && d.at !in settled {
          HandleMessage(c, d);
        }
        i := i + 1;
      }
      assert arrivals[..i] == arrivals;
    }

    method HandleMessage(c: nat, d: Arrival)
      requires c in consumers && consumers[c] == Idle && d.at < |stream|
      modifies this`settled, this`inbox, this`notifications, this`pushes
      ensures Snapshot() == AfterHandling(old(Snapshot()), c, d)
    {
      assert consumers[c := Idle] == consumers;
      var message := stream[d.at];
      if !WellFormed(message) {
        settled := settled[d.at := Termed];
        return;
      }
      var stored, notification := ProcessEvent(message.payload, d.lookup);
      if !stored {
        return;
      }
      if notification.Some? {
        pushes := pushes + [notification.value.event];
      }
      settled := settled[d.at := Acked];
    }

    /** NotificationsService.processEvent: claims the event and stores its notification in one transaction. */
    method ProcessEvent(e: Payload, lookup: bool) returns (done: bool, notification: Option<Notification>)
      requires e.Envelope? && e.event.recipient != Invalid
      modifies this`inbox, this`notifications
      ensures var due := e.event.recipient.To? && e.id !in old(inbox);
              && done == (due ==> lookup)
              && (notification.Some? <==> due && lookup)
              && (if notification.Some? then
                    && notification.value == Notification(e.id, e.event.recipient.user, e.event.eventType)
                    && inbox == old(inbox) + {e.id} && notifications == old(notifications) + [notification.value]
                  else inbox == old(inbox) && notifications == old(notifications))
    {
      if e.event.recipient.Absent? {
        return true, None;
      }
      if e.id in inbox {
        return true, None;
      }
      if !lookup {
        return false, None;
      }
      inbox := inbox + {e.id};
      var row := Notification(e.id, e.event.recipient.user, e.event.eventType);
      notifications := notifications + [row];
      return true, Some(row);
    }
  }
}
