/** What each part of the delivery does: enqueueing, selecting, retrying, terminating and notifying. */
module DeliveryEffects {
  import opened Wrappers
  import opened Delivery
  import opened DeliveryGuarantees
  import opened DeliveryServices

  // ---------- The outbox ----------

  /** A committed event is due at once, and its row keeps it through every run. */
  lemma EnqueuedEventIsKept(s: System, id: EventId, event: Event, now: int, later: seq<Action>)
    requires Inv(s) && Enabled(s, Enqueue(id, event, now))
    ensures var row := Step(s, Enqueue(id, event, now)).rows[id];
      row.event == event && !row.delivered && row.attempts == 0 && row.nextAttempt <= now && row.createdAt == now
    ensures var end := Run(Step(s, Enqueue(id, event, now)), later); id in end.rows && end.rows[id].event == event
  {
    StepKeepsOutbox(s, Enqueue(id, event, now));
    StepKeepsInbox(s, Enqueue(id, event, now));
    RunOnlyGrows(Step(s, Enqueue(id, event, now)), later);
  }

  predicate HeldByAnyone(s: System, id: EventId) {
    exists w | w in s.workers :: id in s.workers[w].todo || id in s.workers[w].writes
  }

  predicate Due(s: System, id: EventId, now: int) {
    id in s.rows && !s.rows[id].delivered && s.rows[id].nextAttempt <= now && !HeldByAnyone(s, id)
  }

  lemma DueIsEligible(s: System, id: EventId, now: int)
    ensures Due(s, id, now) <==> Eligible(s, id, now)
  {
    if id in LockedBy(s.workers) {
      var w :| w in s.workers && id in s.workers[w].Locks();
      assert HeldByAnyone(s, id);
    } else {
      forall w | w in s.workers ensures id !in s.workers[w].todo && id !in s.workers[w].writes {
        assert id !in s.workers[w].Locks();
      }
    }
  }

  /** A worker takes at most twenty rows, all of them due and unlocked; a due row it leaves out is no older than any taken,
      and then the batch is full. */
  lemma OldestDueRowsFirst(s: System, w: nat, batch: seq<EventId>, now: int, id: EventId)
    requires Enabled(s, Begin(w, batch, now))
    ensures |batch| <= 20
    ensures id in batch ==> Due(s, id, now)
    ensures Due(s, id, now) && id !in batch ==> |batch| == 20 && forall x | x in batch :: s.rows[x].createdAt <= s.rows[id].createdAt
    ensures Step(s, Begin(w, batch, now)).rows == s.rows && Step(s, Begin(w, batch, now)).stream == s.stream
  {
    DueIsEligible(s, id, now);
    forall x | x in batch ensures Eligible(s, x, now) {
      var i :| 0 <= i < |batch| && batch[i] == x;
      assert Eligible(s, batch[i], now);
    }
  }

  // ---------- Retrying ----------

  predicate Keeps(a: Action, w: nat) {
    a != Commit(w) && a != Abort(w)
  }

  predicate Recorded(s: System, w: nat, id: EventId, row: Row) {
    w in s.workers && id in s.workers[w].writes && s.workers[w].writes[id] == row
  }

  lemma StepKeepsRecorded(s: System, a: Action, w: nat, id: EventId, row: Row)
    requires Inv(s) && Recorded(s, w, id, row) && Keeps(a, w)
    ensures Recorded(Step(s, a), w, id, row)
  {
    if a.Publish? && a.w == w {
      assert BatchOk(s.rows, s.stream, s.workers[w]);
    } else {
      OthersKeepBatch(s, a, w);
    }
  }

  lemma OthersKeepBatch(s: System, a: Action, w: nat)
    requires w in s.workers && Keeps(a, w) && !(a.Publish? && a.w == w)
    ensures w in Step(s, a).workers && Step(s, a).workers[w] == s.workers[w]
  {
  }

  lemma {:induction false} RunKeepsRecorded(s: System, actions: seq<Action>, w: nat, id: EventId, row: Row)
    requires Inv(s) && Recorded(s, w, id, row) && forall a | a in actions :: Keeps(a, w)
    ensures Inv(Run(s, actions)) && Recorded(Run(s, actions), w, id, row)
    decreases |actions|
  {
    if actions != [] {
      assert actions[0] in actions;
      StepKeepsRecorded(s, actions[0], w, id, row);
      StepKeepsOutbox(s, actions[0]);
      StepKeepsInbox(s, actions[0]);
      RunKeepsRecorded(Step(s, actions[0]), actions[1..], w, id, row);
    }
  }

  /** What one publication puts on the stream, and what the worker notes for the row. */
  lemma PublicationTakesEffect(s: System, w: nat, outcome: Publication, now: int)
    requires Inv(s) && Enabled(s, Publish(w, outcome, now))
    ensures var id, after := s.workers[w].todo[0], Step(s, Publish(w, outcome, now));
      var row, message := s.rows[id], Message("ac.social." + s.rows[id].event.eventType, Envelope(id, s.rows[id].event));
      && after.stream == (if outcome == Failed then s.stream else s.stream + [message]) && after.rows == s.rows
      && Recorded(after, w, id, if outcome == Stored then row.(delivered := true)
                                else row.(attempts := row.attempts + 1, nextAttempt := now + 5))
  {
  }

  /** Whatever other workers and consumers do before the worker commits, its commit marks a published row delivered; one
      whose publication failed, or whose acknowledgement was lost, is due again exactly five seconds after the time of the
      attempt, which the program takes from the start of the transaction. */
  lemma FailureIsRetriedInTime(s: System, w: nat, outcome: Publication, now: int, middle: seq<Action>, moment: int)
    requires Inv(s) && Enabled(s, Publish(w, outcome, now))
    requires forall a | a in middle :: Keeps(a, w)
    requires Enabled(Run(Step(s, Publish(w, outcome, now)), middle), Commit(w))
    ensures var id, after := s.workers[w].todo[0], Step(Run(Step(s, Publish(w, outcome, now)), middle), Commit(w));
      && id in after.rows && after.rows[id].event == s.rows[id].event
      && (after.rows[id].delivered <==> outcome == Stored)
      && after.rows[id].attempts == s.rows[id].attempts + (if outcome == Stored then 0 else 1)
      && (Due(after, id, moment) <==> outcome != Stored && now + 5 <= moment)
  {
    var published, id := Step(s, Publish(w, outcome, now)), s.workers[w].todo[0];
    assert BatchOk(s.rows, s.stream, s.workers[w]);
    PublicationTakesEffect(s, w, outcome, now);
    var row := published.workers[w].writes[id];
    StepKeepsOutbox(s, Publish(w, outcome, now));
    StepKeepsInbox(s, Publish(w, outcome, now));
    RunKeepsRecorded(published, middle, w, id, row);
    CommittedRowIsFree(Run(published, middle), w, id, row);
  }

  lemma CommittedRowIsFree(s: System, w: nat, id: EventId, row: Row)
    requires OutboxInv(s) && Recorded(s, w, id, row) && Enabled(s, Commit(w))
    ensures var after := Step(s, Commit(w)); id in after.rows && after.rows[id] == row && !HeldByAnyone(after, id)
  {
    var after := Step(s, Commit(w));
    assert id in s.workers[w].Locks();
    forall v | v in after.workers ensures id !in after.workers[v].todo && id !in after.workers[v].writes {
      assert s.workers[v].Locks() !! s.workers[w].Locks();
      assert id !in s.workers[v].Locks();
    }
  }

  /** A crash of the worker changes no row and releases those it held: each is due again as before the batch. */
  lemma CrashLosesNothing(s: System, w: nat, id: EventId, moment: int)
    requires Inv(s) && w in s.workers && (id in s.workers[w].todo || id in s.workers[w].writes)
    ensures var after := Step(s, Abort(w));
      && after.rows == s.rows && after.stream == s.stream
      && id in s.rows && (Due(after, id, moment) <==> s.rows[id].nextAttempt <= moment)
  {
    var after := Step(s, Abort(w));
    assert BatchOk(s.rows, s.stream, s.workers[w]) && id in s.workers[w].Locks();
    forall v | v in after.workers ensures id !in after.workers[v].todo && id !in after.workers[v].writes {
      assert s.workers[v].Locks() !! s.workers[w].Locks();
      assert id !in s.workers[v].Locks();
    }
  }

  // ---------- The consumer ----------

  /** What makes a message worth processing. */
  predicate Sound(m: Message) {
    && m.payload.Envelope? && m.payload.event.eventType != "" && !m.payload.event.recipient.Invalid?
    && m.subject == "ac.social." + m.payload.event.eventType
  }

  /** Of the settled messages exactly the unsound ones are terminated, and only sound ones are notified about. */
  lemma TerminatedExactly(actions: seq<Action>)
    ensures var s := Run(START, actions);
      && (forall at | at in s.settled :: at < |s.stream| && (s.settled[at] == Termed <==> !Sound(s.stream[at])))
      && (forall n | n in s.notifications ::
            exists m :: m in s.stream && Sound(m) && m.payload.id == n.event
                        && m.payload.event == Event(n.eventType, To(n.recipient)))
  {
    RunKeepsInv(START, actions);
    var s := Run(START, actions);
    forall n | n in s.notifications
      ensures exists m :: m in s.stream && Sound(m) && m.payload.id == n.event && m.payload.event == Event(n.eventType, To(n.recipient))
    {
      var m :| m in s.stream && Explains(m, n);
      assert m in s.stream && Sound(m);
    }
  }

  /** One message handed to an idle consumer. Unsound: terminated. Nobody to notify, or notified before: acknowledged. The
      lookup fails: everything stays, so it comes again. Otherwise: one notification, one push, acknowledged. */
  lemma HandlingTakesEffect(s: System, c: nat, at: nat, lookup: bool)
    requires c in s.consumers && s.consumers[c] == Idle && at < |s.stream| && at !in s.settled
    ensures var after, m := Run(s, Handling(c, Arrival(at, lookup))), s.stream[at];
      && after.rows == s.rows && after.stream == s.stream && after.workers == s.workers && after.consumers == s.consumers
      && (if !Sound(m) then after == s.(settled := s.settled[at := Termed])
          else if m.payload.event.recipient.Absent? || m.payload.id in s.inbox
          then after == s.(settled := s.settled[at := Acked])
          else if !lookup then after == s
          else
            && after.settled == s.settled[at := Acked] && after.inbox == s.inbox + {m.payload.id}
            && after.pushes == s.pushes + [m.payload.id]
            && after.notifications == s.notifications
                 + [Notification(m.payload.id, m.payload.event.recipient.user, m.payload.event.eventType)])
  {
    HandlingIsARun(s, c, Arrival(at, lookup));
    assert s.consumers[c := Idle] == s.consumers;
  }
}
