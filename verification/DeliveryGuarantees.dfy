/** Exactly-once effect and absence of loss, in every run of the delivery protocol. */
module DeliveryGuarantees {
  import opened Wrappers
  import opened Delivery

  /** Messages, settlements, inbox entries, notifications and pushes are never taken back; a row keeps its event. */
  predicate OnlyGrows(s: System, t: System) {
    && RowsGrow(s.rows, t.rows)
    && s.stream <= t.stream
    && s.inbox <= t.inbox
    && s.notifications <= t.notifications
    && s.pushes <= t.pushes
    && SettledGrow(s.settled, t.settled)
  }

  lemma StepOnlyGrows(s: System, a: Action)
    requires Inv(s)
    ensures OnlyGrows(s, Step(s, a))
  {
    if Enabled(s, a) {
      if a.Enqueue? || a.Foreign? || a.Begin? || a.Publish? || a.Commit? || a.Abort? {
        WorkerOnlyAdds(s, a);
      } else {
        ConsumerOnlyAdds(s, a);
      }
    }
  }

  lemma WorkerOnlyAdds(s: System, a: Action)
    requires OutboxInv(s) && Enabled(s, a)
    requires a.Enqueue? || a.Foreign? || a.Begin? || a.Publish? || a.Commit? || a.Abort?
    ensures OnlyGrows(s, Effect(s, a))
  {
    if a.Commit? {
      CommitGrows(s.rows, s.stream, s.workers[a.w]);
    }
  }

  lemma ConsumerOnlyAdds(s: System, a: Action)
    requires InboxInv(s) && Enabled(s, a)
    requires a.Fetch? || a.Validate? || a.Precheck? || a.Claim? || a.Push? || a.Settle? || a.Drop?
    ensures OnlyGrows(s, Effect(s, a))
  {
    if a.Validate? {
      assert WorkOf(s, a.c).Received?;
    } else if a.Settle? {
      SettlingGrows(s.stream, s.inbox, s.settled, s.pushes, s.consumers[a.c]);
    }
  }

  predicate RowsGrow(before: map<EventId, Row>, after: map<EventId, Row>) {
    forall id | id in before ::
      id in after && after[id].event == before[id].event && (before[id].delivered ==> after[id].delivered)
  }

  lemma CommitGrows(rows: map<EventId, Row>, stream: seq<Message>, b: Batch)
    requires BatchOk(rows, stream, b)
    ensures RowsGrow(rows, rows + b.writes)
  {
  }

  predicate SettledGrow(before: map<nat, Settlement>, after: map<nat, Settlement>) {
    forall at | at in before :: at in after && after[at] == before[at]
  }

  /** A message that is acknowledged again was not terminated. */
  lemma SettlingGrows(stream: seq<Message>, inbox: set<EventId>, settled: map<nat, Settlement>, pushes: seq<EventId>, work: Work)
    requires SettledRightly(stream, inbox, settled) && WorkOk(stream, inbox, pushes, work) && work.Done?
    ensures SettledGrow(settled, settled[work.at := Acked])
  {
  }

  lemma {:induction false} RunOnlyGrows(s: System, actions: seq<Action>)
    requires Inv(s)
    ensures Inv(Run(s, actions)) && OnlyGrows(s, Run(s, actions))
    decreases |actions|
  {
    if actions != [] {
      StepKeepsOutbox(s, actions[0]);
      StepKeepsInbox(s, actions[0]);
      StepOnlyGrows(s, actions[0]);
      RunOnlyGrows(Step(s, actions[0]), actions[1..]);
    }
  }

  /** One notification per event id, existing exactly when the id is in the inbox; at most one push, and only of stored ones. */
  lemma ExactlyOnce(actions: seq<Action>, id: EventId)
    ensures var s := Run(START, actions);
            && (forall i, j | 0 <= i < |s.notifications| && 0 <= j < |s.notifications|
                              && s.notifications[i].event == id && s.notifications[j].event == id :: i == j)
            && ((exists n :: n in s.notifications && n.event == id) <==> id in s.inbox)
            && multiset(s.pushes)[id] <= 1
            && (id in s.pushes ==> id in s.inbox)
  {
    RunKeepsInv(START, actions);
    DistinctOccurOnce(Run(START, actions).pushes, id);
  }

  lemma {:induction false} DistinctOccurOnce(xs: seq<EventId>, x: EventId)
    requires forall i, j | 0 <= i < j < |xs| :: xs[i] != xs[j]
    ensures multiset(xs)[x] <= 1
  {
    if xs != [] {
      DistinctOccurOnce(xs[1..], x);
      assert xs == [xs[0]] + xs[1..];
      assert xs[0] == x ==> x !in xs[1..];
    }
  }

  /** A delivered mark is only committed for an event on the stream, and a row is held by at most one worker. */
  lemma OutboxLosesNothing(actions: seq<Action>)
    ensures var s := Run(START, actions);
            && (forall id | id in s.rows :: !s.rows[id].delivered || Published(id, s.rows[id].event) in s.stream)
            && (forall v, w, id | v in s.workers && w in s.workers && id in s.workers[v].Locks() && id in s.workers[w].Locks() :: v == w)
  {
    RunKeepsInv(START, actions);
  }

  /** An acknowledged message was processed; a terminated one was malformed, which a published event with a type and a sound recipient never is. */
  lemma SettledMeansProcessed(actions: seq<Action>, at: nat)
    requires at in Run(START, actions).settled
    ensures var s := Run(START, actions);
            && at < |s.stream|
            && (s.settled[at] == Acked ==> Handled(s.stream[at], s.inbox))
            && (s.settled[at] == Termed ==> !WellFormed(s.stream[at]))
            && (forall id | id in s.rows && Uses(s.stream[at], id) && s.rows[id].event.eventType != "" && s.rows[id].event.recipient != Invalid ::
                  s.settled[at] == Acked)
  {
    RunKeepsInv(START, actions);
    var s := Run(START, actions);
    assert Authentic(s.rows, s.stream[at]);
  }

  /** A notification under an outbox id is for that row's recipient, whatever duplicates and foreign messages there were. */
  lemma NotificationIsTheRows(actions: seq<Action>, n: Notification)
    requires n in Run(START, actions).notifications && n.event in Run(START, actions).rows
    ensures var row := Run(START, actions).rows[n.event];
            row.event.recipient == To(n.recipient) && row.event.eventType == n.eventType
  {
    RunKeepsInv(START, actions);
    var s := Run(START, actions);
    var m :| m in s.stream && Explains(m, n);
    assert Authentic(s.rows, m);
  }

  /** Once a row is marked delivered and its messages are settled, its recipient has exactly one notification. */
  lemma DrainedMeansNotified(actions: seq<Action>, id: EventId, user: string)
    requires var s := Run(START, actions);
             && id in s.rows && s.rows[id].delivered
             && s.rows[id].event.eventType != "" && s.rows[id].event.recipient == To(user)
             && forall at | 0 <= at < |s.stream| && Uses(s.stream[at], id) :: at in s.settled
    ensures var s := Run(START, actions);
            var n := Notification(id, user, s.rows[id].event.eventType);
            exists i :: 0 <= i < |s.notifications| && s.notifications[i] == n
                        && forall j | 0 <= j < |s.notifications| && j != i :: s.notifications[j].event != id
  {
    RunKeepsInv(START, actions);
    var s := Run(START, actions);
    var m := Published(id, s.rows[id].event);
    var at :| 0 <= at < |s.stream| && s.stream[at] == m;
    SettledMeansProcessed(actions, at);
    var n :| n in s.notifications && n.event == id;
    NotificationIsTheRows(actions, n);
    var i :| 0 <= i < |s.notifications| && s.notifications[i] == n;
  }

  lemma {:induction false} RunAppend(s: System, xs: seq<Action>, ys: seq<Action>)
    ensures Run(s, xs + ys) == Run(Run(s, xs), ys)
    decreases |xs|
  {
    if xs == [] {
      assert xs + ys == ys;
    } else {
      assert (xs + ys)[0] == xs[0] && (xs + ys)[1..] == xs[1..] + ys;
      RunAppend(Step(s, xs[0]), xs[1..], ys);
    }
  }

  lemma RunCons(s: System, a: Action, rest: seq<Action>)
    ensures Run(s, [a] + rest) == Run(Step(s, a), rest)
  {
    assert ([a] + rest)[1..] == rest;
  }

  lemma RunOfFive(s: System, a: Action, b: Action, c: Action, d: Action, e: Action)
    ensures Run(s, [a, b, c, d, e]) == Step(Step(Step(Step(Step(s, a), b), c), d), e)
  {
    RunCons(s, a, [b, c, d, e]);
    RunCons(Step(s, a), b, [c, d, e]);
    RunCons(Step(Step(s, a), b), c, [d, e]);
    RunCons(Step(Step(Step(s, a), b), c), d, [e]);
    RunCons(Step(Step(Step(Step(s, a), b), c), d), e, []);
    assert [a, b, c, d, e] == [a] + [b, c, d, e] && [b, c, d, e] == [b] + [c, d, e] && [c, d, e] == [c] + [d, e];
    assert [d, e] == [d] + [e] && [e] == [e] + [];
  }

  /** A consumer takes an unsettled message and rejects it for good if it is malformed. */
  lemma FetchThenValidate(s: System, c: nat, at: nat)
    requires WorkOf(s, c).Idle? && at < |s.stream| && at !in s.settled
    ensures Step(Step(s, Fetch(c, at)), Validate(c))
         == if WellFormed(s.stream[at]) then s.(consumers := s.consumers[c := Accepted(at)])
            else s.(settled := s.settled[at := Termed], consumers := s.consumers[c := Idle])
  {
    assert Step(s, Fetch(c, at)) == s.(consumers := s.consumers[c := Received(at)]);
  }

  predicate Notifies(s: System, at: nat)
    requires at < |s.stream| && WellFormed(s.stream[at])
  {
    s.stream[at].payload.event.recipient.To? && s.stream[at].payload.id !in s.inbox
  }

  lemma PrecheckOnly(s: System, c: nat, at: nat)
    requires WorkOf(s, c) == Accepted(at) && at < |s.stream| && WellFormed(s.stream[at])
    ensures Step(s, Precheck(c)) == s.(consumers := s.consumers[c := if Notifies(s, at) then Unclaimed(at) else Done(at)])
  {
  }

  lemma ClaimOnly(s: System, c: nat, at: nat)
    requires at < |s.stream| && WellFormed(s.stream[at])
    requires WorkOf(s, c) == if Notifies(s, at) then Unclaimed(at) else Done(at)
    ensures Step(s, Claim(c)) ==
            if !Notifies(s, at) then s
            else var e := s.stream[at].payload;
                 s.(inbox := s.inbox + {e.id},
                    notifications := s.notifications + [Notification(e.id, e.event.recipient.user, e.event.eventType)],
                    consumers := s.consumers[c := Fresh(at)])
  {
  }

  /** Delivering an unsettled message to a consumer that meets no failure. */
  lemma FailureFreeHandling(s: System, c: nat, at: nat)
    requires Inv(s) && at < |s.stream| && at !in s.settled && WellFormed(s.stream[at]) && s.stream[at].payload.event.recipient.To?
    ensures s.stream[at].payload.id in Step(Step(Step(Step(Step(s, Drop(c)), Fetch(c, at)), Validate(c)), Precheck(c)), Claim(c)).inbox
  {
    var s1 := Step(s, Drop(c));
    assert s1 == s.(consumers := s.consumers[c := Idle]);
    FetchThenValidate(s1, c, at);
    var s3 := Step(Step(s1, Fetch(c, at)), Validate(c));
    PrecheckOnly(s3, c, at);
    ClaimOnly(Step(s3, Precheck(c)), c, at);
  }

  /** Nothing gets stuck: whatever happened before, a published event can still reach its recipient. */
  lemma PublishedCanBeNotified(actions: seq<Action>, id: EventId, user: string)
    requires var s := Run(START, actions);
             id in s.rows && s.rows[id].event.eventType != "" && s.rows[id].event.recipient == To(user)
             && Published(id, s.rows[id].event) in s.stream
    ensures exists more :: id in Run(START, actions + more).inbox
  {
    var s := Run(START, actions);
    RunKeepsInv(START, actions);
    var at :| 0 <= at < |s.stream| && s.stream[at] == Published(id, s.rows[id].event);
    if at in s.settled {
      SettledMeansProcessed(actions, at);
      assert actions + [] == actions;
    } else {
      FailureFreeHandling(s, 0, at);
      RunOfFive(s, Drop(0), Fetch(0, at), Validate(0), Precheck(0), Claim(0));
      RunAppend(START, actions, [Drop(0), Fetch(0, at), Validate(0), Precheck(0), Claim(0)]);
    }
  }
}
