/** The path of an event: transactional outbox, JetStream, consumer, inbox, notification, SSE push. */
module Delivery {
  import opened Wrappers

  type EventId = nat

  /** `Invalid` is a recipient field that is present but not a non-blank string. */
  datatype Recipient = Absent | Invalid | To(user: string)
  datatype Event = Event(eventType: string, recipient: Recipient)
  datatype Row = Row(event: Event, createdAt: int, delivered: bool, attempts: nat, nextAttempt: int)

  /** `Garbage` is data that is not JSON or not an event envelope. */
  datatype Payload = Garbage | Envelope(id: EventId, event: Event)
  datatype Message = Message(subject: string, payload: Payload)

  datatype Notification = Notification(event: EventId, recipient: string, eventType: string)
  datatype Settlement = Acked | Termed

  /** A worker transaction: rows still to publish, and its uncommitted updates. */
  datatype Batch = Batch(todo: seq<EventId>, writes: map<EventId, Row>) {
    function Locks(): set<EventId> {
      (set id | id in todo) + writes.Keys
    }
  }

  /** How far a consumer got with message `at`; only `Fresh` still has to push what it just stored. */
  datatype Work = Idle | Received(at: nat) | Accepted(at: nat) | Unclaimed(at: nat) | Fresh(at: nat) | Done(at: nat)

  datatype Publication = Stored | AckLost | Failed

  datatype System = System(
    rows: map<EventId, Row>, workers: map<nat, Batch>,
    stream: seq<Message>, settled: map<nat, Settlement>, consumers: map<nat, Work>,
    inbox: set<EventId>, notifications: seq<Notification>, pushes: seq<EventId>)

  const BATCH_SIZE := 20
  const RETRY_SECONDS := 5
  const PREFIX := "ac.social."

  const START := System(map[], map[], [], map[], map[], {}, [], [])

  function Published(id: EventId, event: Event): Message {
    Message(PREFIX + event.eventType, Envelope(id, event))
  }

  /** What the consumer checks before it touches the database. */
  predicate WellFormed(m: Message) {
    && m.payload.Envelope?
    && m.payload.event.eventType != ""
    && m.payload.event.recipient != Invalid
    && m.subject == PREFIX + m.payload.event.eventType
  }

  function Marked(row: Row, outcome: Publication, now: int): Row {
    if outcome == Stored then row.(delivered := true)
    else row.(attempts := row.attempts + 1, nextAttempt := now + RETRY_SECONDS)
  }

  function LockedBy(workers: map<nat, Batch>): set<EventId> {
    set w, id | w in workers && id in workers[w].Locks() :: id
  }

  predicate Eligible(s: System, id: EventId, now: int) {
    id in s.rows && !s.rows[id].delivered && s.rows[id].nextAttempt <= now && id !in LockedBy(s.workers)
  }

  /** SELECT ... ORDER BY created_at LIMIT 20 FOR UPDATE SKIP LOCKED */
  predicate Selects(s: System, batch: seq<EventId>, now: int) {
    && |batch| <= BATCH_SIZE
    && (forall i, j | 0 <= i < j < |batch| :: batch[i] != batch[j])
    && (forall i | 0 <= i < |batch| :: Eligible(s, batch[i], now))
    && (forall i, j | 0 <= i < j < |batch| :: s.rows[batch[i]].createdAt <= s.rows[batch[j]].createdAt)
    && (forall id | id in s.rows && Eligible(s, id, now) && id !in batch ::
          |batch| == BATCH_SIZE && forall i | 0 <= i < |batch| :: s.rows[batch[i]].createdAt <= s.rows[id].createdAt)
  }

  datatype Action =
    | Enqueue(id: EventId, event: Event, now: int)
    | Foreign(message: Message)
    | Begin(w: nat, batch: seq<EventId>, now: int)
    | Publish(w: nat, outcome: Publication, now: int)
    | Commit(w: nat)
    | Abort(w: nat)
    | Fetch(c: nat, at: nat)
    | Validate(c: nat)
    | Precheck(c: nat)
    | Claim(c: nat)
    | Push(c: nat)
    | Settle(c: nat)
    | Drop(c: nat)

  function WorkOf(s: System, c: nat): Work {
    if c in s.consumers then s.consumers[c] else Idle
  }

  predicate Uses(m: Message, id: EventId) {
    m.payload.Envelope? && m.payload.id == id
  }

  /** Event ids are random uuids: nobody else has used a new one. */
  predicate UnusedId(s: System, id: EventId) {
    id !in s.rows && forall m | m in s.stream :: !Uses(m, id)
  }

  /** Other services publish to the same stream, but not under ids of this outbox. */
  predicate OutsideOutbox(s: System, m: Message) {
    forall id | id in s.rows :: !Uses(m, id)
  }

  predicate Enabled(s: System, a: Action) {
    match a
    case Enqueue(id, _, _) => UnusedId(s, id)
    case Foreign(m) => OutsideOutbox(s, m)
    case Begin(w, batch, now) => w !in s.workers && Selects(s, batch, now)
    case Publish(w, _, _) => w in s.workers && s.workers[w].todo != [] && s.workers[w].todo[0] in s.rows
    case Commit(w) => w in s.workers && s.workers[w].todo == []
    case Abort(w) => w in s.workers
    case Fetch(c, at) => WorkOf(s, c).Idle? && at < |s.stream| && at !in s.settled
    case Validate(c) => WorkOf(s, c).Received? && WorkOf(s, c).at < |s.stream|
    case Precheck(c) => WorkOf(s, c).Accepted? && WorkOf(s, c).at < |s.stream| && WellFormed(s.stream[WorkOf(s, c).at])
    case Claim(c) => WorkOf(s, c).Unclaimed? && WorkOf(s, c).at < |s.stream| && WellFormed(s.stream[WorkOf(s, c).at]) &&
                     s.stream[WorkOf(s, c).at].payload.event.recipient.To?
    case Push(c) => WorkOf(s, c).Fresh? && WorkOf(s, c).at < |s.stream| && s.stream[WorkOf(s, c).at].payload.Envelope?
    case Settle(c) => WorkOf(s, c).Done?
    case Drop(c) => true
  }

  function Effect(s: System, a: Action): System
    requires Enabled(s, a)
  {
    match a
    case Enqueue(id, event, now) => s.(rows := s.rows[id := Row(event, now, false, 0, now)])
    case Foreign(m) => s.(stream := s.stream + [m])
    case Begin(w, batch, now) => s.(workers := s.workers[w := Batch(batch, map[])])
    case Publish(w, outcome, now) =>
      var batch := s.workers[w];
      var id := batch.todo[0];
      var next := Batch(batch.todo[1..], batch.writes[id := Marked(s.rows[id], outcome, now)]);
      s.(workers := s.workers[w := next],
         stream := if outcome == Failed then s.stream else s.stream + [Published(id, s.rows[id].event)])
    case Commit(w) => s.(rows := s.rows + s.workers[w].writes, workers := s.workers - {w})
    // A crash or a lost connection rolls the transaction back and releases its row locks.
    case Abort(w) => s.(workers := s.workers - {w})
    case Fetch(c, at) => s.(consumers := s.consumers[c := Received(at)])
    case Validate(c) =>
      var at := WorkOf(s, c).at;
      if !WellFormed(s.stream[at]) then s.(settled := s.settled[at := Termed], consumers := s.consumers[c := Idle])
      else s.(consumers := s.consumers[c := Accepted(at)])
    case Precheck(c) =>
      var at := WorkOf(s, c).at;
      var envelope := s.stream[at].payload;
      s.(consumers := s.consumers[c := if envelope.event.recipient.Absent? || envelope.id in s.inbox then Done(at) else Unclaimed(at)])
    case Claim(c) =>
      var at := WorkOf(s, c).at;
      var envelope := s.stream[at].payload;
      if envelope.id in s.inbox then s.(consumers := s.consumers[c := Done(at)])
      else s.(inbox := s.inbox + {envelope.id},
              notifications := s.notifications + [Notification(envelope.id, envelope.event.recipient.user, envelope.event.eventType)],
              consumers := s.consumers[c := Fresh(at)])
    case Push(c) =>
      var at := WorkOf(s, c).at;
      s.(pushes := s.pushes + [s.stream[at].payload.id], consumers := s.consumers[c := Done(at)])
    case Settle(c) => s.(settled := s.settled[WorkOf(s, c).at := Acked], consumers := s.consumers[c := Idle])
    // A negative or lost acknowledgement, or a crash: the message stays unsettled and is redelivered.
    case Drop(c) => s.(consumers := s.consumers[c := Idle])
  }

  /** Actions that are not enabled do nothing, so every sequence of actions is a run. */
  function Step(s: System, a: Action): System {
    if Enabled(s, a) then Effect(s, a) else s
  }

  function Run(s: System, actions: seq<Action>): System
    decreases |actions|
  {
    if actions == [] then s else Run(Step(s, actions[0]), actions[1..])
  }

  // ---------- Invariant: the outbox side ----------

  predicate OnStream(stream: seq<Message>, id: EventId, event: Event) {
    Published(id, event) in stream
  }

  /** A transaction updates each of its rows once, and marks none delivered that is not on the stream. */
  predicate BatchOk(rows: map<EventId, Row>, stream: seq<Message>, b: Batch) {
    && (forall i, j | 0 <= i < j < |b.todo| :: b.todo[i] != b.todo[j])
    && (forall id | id in b.todo :: id !in b.writes && id in rows && !rows[id].delivered)
    && (forall id | id in b.writes ::
          && id in rows && !rows[id].delivered && b.writes[id].event == rows[id].event
          && (b.writes[id].delivered ==> OnStream(stream, id, rows[id].event)))
  }

  predicate BatchesOk(rows: map<EventId, Row>, stream: seq<Message>, workers: map<nat, Batch>) {
    forall w | w in workers :: BatchOk(rows, stream, workers[w])
  }

  predicate NoSharedLocks(workers: map<nat, Batch>) {
    forall v, w | v in workers && w in workers && v != w :: workers[v].Locks() !! workers[w].Locks()
  }

  predicate DeliveredIsOnStream(rows: map<EventId, Row>, stream: seq<Message>) {
    forall id | id in rows && rows[id].delivered :: OnStream(stream, id, rows[id].event)
  }

  /** Messages under an outbox id are exactly what the worker publishes for that row. */
  predicate Authentic(rows: map<EventId, Row>, m: Message) {
    m.payload.Envelope? && m.payload.id in rows ==> m == Published(m.payload.id, rows[m.payload.id].event)
  }

  predicate AllAuthentic(rows: map<EventId, Row>, stream: seq<Message>) {
    forall m | m in stream :: Authentic(rows, m)
  }

  predicate OutboxInv(s: System) {
    && BatchesOk(s.rows, s.stream, s.workers)
    && NoSharedLocks(s.workers)
    && DeliveredIsOnStream(s.rows, s.stream)
    && AllAuthentic(s.rows, s.stream)
  }

  // ---------- Invariant: the inbox side ----------

  predicate Explains(m: Message, n: Notification) {
    WellFormed(m) && m.payload.event.recipient.To?
    && n == Notification(m.payload.id, m.payload.event.recipient.user, m.payload.event.eventType)
  }

  /** One notification per claimed event id. */
  predicate ClaimedOnce(notifications: seq<Notification>, inbox: set<EventId>) {
    && (forall i, j | 0 <= i < j < |notifications| :: notifications[i].event != notifications[j].event)
    && (forall n | n in notifications :: n.event in inbox)
    && (forall id | id in inbox :: exists n :: n in notifications && n.event == id)
  }

  predicate AllExplained(stream: seq<Message>, notifications: seq<Notification>) {
    forall n | n in notifications :: exists m :: m in stream && Explains(m, n)
  }

  predicate PushedOnce(pushes: seq<EventId>, inbox: set<EventId>) {
    && (forall i, j | 0 <= i < j < |pushes| :: pushes[i] != pushes[j])
    && (forall id | id in pushes :: id in inbox)
  }

  /** The event has been processed: it is in the inbox, or it has nobody to notify. */
  predicate Handled(m: Message, inbox: set<EventId>) {
    m.payload.Envelope? && (m.payload.event.recipient.Absent? || m.payload.id in inbox)
  }

  predicate WorkOk(stream: seq<Message>, inbox: set<EventId>, pushes: seq<EventId>, work: Work) {
    work.Idle? ||
    (&& work.at < |stream|
     && (!work.Received? ==> WellFormed(stream[work.at]))
     && (work.Unclaimed? || work.Fresh? ==> stream[work.at].payload.event.recipient.To?)
     && (work.Fresh? ==> stream[work.at].payload.id in inbox && stream[work.at].payload.id !in pushes)
     && (work.Done? ==> Handled(stream[work.at], inbox)))
  }

  predicate WorksOk(stream: seq<Message>, inbox: set<EventId>, pushes: seq<EventId>, consumers: map<nat, Work>) {
    forall c | c in consumers :: WorkOk(stream, inbox, pushes, consumers[c])
  }

  predicate FreshFor(stream: seq<Message>, work: Work, id: EventId) {
    work.Fresh? && work.at < |stream| && Uses(stream[work.at], id)
  }

  /** Two consumers never both have the same event left to push. */
  ghost predicate FreshApart(stream: seq<Message>, consumers: map<nat, Work>) {
    forall b, c, id | b in consumers && c in consumers && FreshFor(stream, consumers[b], id) && FreshFor(stream, consumers[c], id) :: b == c
  }

  predicate SettledRightly(stream: seq<Message>, inbox: set<EventId>, settled: map<nat, Settlement>) {
    forall at | at in settled ::
      && at < |stream|
      && (settled[at] == Termed <==> !WellFormed(stream[at]))
      && (settled[at] == Acked ==> Handled(stream[at], inbox))
  }

  ghost predicate InboxInv(s: System) {
    && ClaimedOnce(s.notifications, s.inbox)
    && AllExplained(s.stream, s.notifications)
    && PushedOnce(s.pushes, s.inbox)
    && WorksOk(s.stream, s.inbox, s.pushes, s.consumers)
    && FreshApart(s.stream, s.consumers)
    && SettledRightly(s.stream, s.inbox, s.settled)
  }

  ghost predicate Inv(s: System) {
    OutboxInv(s) && InboxInv(s)
  }

  // ---------- Every step keeps them ----------

  lemma MessageKeepsOutbox(s: System, m: Message)
    requires OutboxInv(s) && Authentic(s.rows, m)
    ensures OutboxInv(s.(stream := s.stream + [m]))
  {
  }

  lemma MessageKeepsInbox(s: System, m: Message)
    requires InboxInv(s)
    ensures InboxInv(s.(stream := s.stream + [m]))
  {
    var stream := s.stream + [m];
    assert FreshApart(stream, s.consumers) by {
      forall c, id | c in s.consumers && FreshFor(stream, s.consumers[c], id)
        ensures FreshFor(s.stream, s.consumers[c], id)
      {
        assert WorkOk(s.stream, s.inbox, s.pushes, s.consumers[c]);
      }
    }
  }

  lemma EnqueueKeepsOutbox(s: System, a: Action)
    requires OutboxInv(s) && a.Enqueue? && Enabled(s, a)
    ensures OutboxInv(Effect(s, a))
  {
    var rows := Effect(s, a).rows;
    forall m | m in s.stream
      ensures Authentic(rows, m)
    {
      assert Authentic(s.rows, m) && !Uses(m, a.id);
    }
  }

  lemma BeginKeepsOutbox(s: System, w: nat, batch: seq<EventId>, now: int)
    requires OutboxInv(s) && w !in s.workers && Selects(s, batch, now)
    ensures OutboxInv(s.(workers := s.workers[w := Batch(batch, map[])]))
  {
    var workers := s.workers[w := Batch(batch, map[])];
    forall v | v in s.workers
      ensures s.workers[v].Locks() !! workers[w].Locks()
    {
      forall id | id in workers[w].Locks()
        ensures id !in s.workers[v].Locks()
      {
        assert Eligible(s, id, now);
      }
    }
  }

  /** Recording the outcome for the row at the head of a batch. */
  lemma MarkKeepsBatch(rows: map<EventId, Row>, stream: seq<Message>, b: Batch, row: Row)
    requires BatchOk(rows, stream, b) && b.todo != [] && row.event == rows[b.todo[0]].event
    requires row.delivered ==> OnStream(stream, b.todo[0], row.event)
    ensures BatchOk(rows, stream, Batch(b.todo[1..], b.writes[b.todo[0] := row]))
    ensures Batch(b.todo[1..], b.writes[b.todo[0] := row]).Locks() == b.Locks()
  {
    assert b.todo == [b.todo[0]] + b.todo[1..];
    forall id | id in b.todo[1..] ensures id != b.todo[0] {
      var i :| 0 <= i < |b.todo| - 1 && b.todo[1..][i] == id;
      assert b.todo[i + 1] == id;
    }
  }

  lemma MarkKeepsOutbox(s: System, w: nat, outcome: Publication, now: int)
    requires OutboxInv(s) && w in s.workers && s.workers[w].todo != []
    requires var id := s.workers[w].todo[0]; id in s.rows && (outcome == Stored ==> OnStream(s.stream, id, s.rows[id].event))
    ensures var b := s.workers[w];
            var id := b.todo[0];
            OutboxInv(s.(workers := s.workers[w := Batch(b.todo[1..], b.writes[id := Marked(s.rows[id], outcome, now)])]))
  {
    var b := s.workers[w];
    var id := b.todo[0];
    assert BatchOk(s.rows, s.stream, b);
    MarkKeepsBatch(s.rows, s.stream, b, Marked(s.rows[id], outcome, now));
  }

  lemma PublishKeepsOutbox(s: System, a: Action)
    requires OutboxInv(s) && a.Publish? && Enabled(s, a)
    ensures OutboxInv(Effect(s, a))
  {
    var id := s.workers[a.w].todo[0];
    var m := Published(id, s.rows[id].event);
    if a.outcome == Failed {
      MarkKeepsOutbox(s, a.w, a.outcome, a.now);
    } else {
      MessageKeepsOutbox(s, m);
      MarkKeepsOutbox(s.(stream := s.stream + [m]), a.w, a.outcome, a.now);
    }
  }

  lemma CommitKeepsOutbox(s: System, w: nat)
    requires OutboxInv(s) && w in s.workers && s.workers[w].todo == []
    ensures OutboxInv(s.(rows := s.rows + s.workers[w].writes, workers := s.workers - {w}))
  {
    var rows := s.rows + s.workers[w].writes;
    assert BatchOk(s.rows, s.stream, s.workers[w]);
    forall v | v in s.workers - {w}
      ensures BatchOk(rows, s.stream, s.workers[v])
    {
      assert BatchOk(s.rows, s.stream, s.workers[v]) && s.workers[v].Locks() !! s.workers[w].Locks();
    }
  }

  lemma StepKeepsOutbox(s: System, a: Action)
    requires OutboxInv(s)
    ensures OutboxInv(Step(s, a))
  {
    if Enabled(s, a) {
      match a
      case Enqueue(_, _, _) => EnqueueKeepsOutbox(s, a);
      case Foreign(m) => MessageKeepsOutbox(s, m);
      case Begin(w, batch, now) => BeginKeepsOutbox(s, w, batch, now);
      case Publish(_, _, _) => PublishKeepsOutbox(s, a);
      case Commit(w) => CommitKeepsOutbox(s, w);
      case _ =>
    }
  }

  lemma WorkKeepsInbox(s: System, c: nat, work: Work)
    requires InboxInv(s) && WorkOk(s.stream, s.inbox, s.pushes, work) && !work.Fresh?
    ensures InboxInv(s.(consumers := s.consumers[c := work]))
  {
  }

  lemma SettlingKeepsInbox(s: System, at: nat, settlement: Settlement)
    requires InboxInv(s) && at < |s.stream|
    requires if settlement == Termed then !WellFormed(s.stream[at]) else WellFormed(s.stream[at]) && Handled(s.stream[at], s.inbox)
    ensures InboxInv(s.(settled := s.settled[at := settlement]))
  {
  }

  lemma ClaimNew(notifications: seq<Notification>, inbox: set<EventId>, n: Notification)
    requires ClaimedOnce(notifications, inbox) && n.event !in inbox
    ensures ClaimedOnce(notifications + [n], inbox + {n.event})
  {
    var after := notifications + [n];
    forall id | id in inbox + {n.event} ensures exists k :: k in after && k.event == id {
      if id == n.event {
        assert n in after;
      } else {
        var k :| k in notifications && k.event == id;
        assert k in after;
      }
    }
  }

  lemma ClaimKeepsInbox(s: System, c: nat, at: nat)
    requires InboxInv(s) && at < |s.stream| && WellFormed(s.stream[at]) && s.stream[at].payload.event.recipient.To?
    requires s.stream[at].payload.id !in s.inbox
    ensures var e := s.stream[at].payload;
            InboxInv(s.(inbox := s.inbox + {e.id},
                        notifications := s.notifications + [Notification(e.id, e.event.recipient.user, e.event.eventType)],
                        consumers := s.consumers[c := Fresh(at)]))
  {
    var e := s.stream[at].payload;
    var n := Notification(e.id, e.event.recipient.user, e.event.eventType);
    assert Explains(s.stream[at], n);
    ClaimNew(s.notifications, s.inbox, n);
    forall b | b in s.consumers
      ensures !FreshFor(s.stream, s.consumers[b], e.id)
    {
      assert WorkOk(s.stream, s.inbox, s.pushes, s.consumers[b]);
    }
  }

  lemma PushKeepsInbox(s: System, c: nat, at: nat)
    requires InboxInv(s) && WorkOf(s, c) == Fresh(at)
    ensures at < |s.stream| && s.stream[at].payload.Envelope?
    ensures InboxInv(s.(pushes := s.pushes + [s.stream[at].payload.id], consumers := s.consumers[c := Done(at)]))
  {
    assert WorkOk(s.stream, s.inbox, s.pushes, s.consumers[c]);
    var id := s.stream[at].payload.id;
    var pushes := s.pushes + [id];
    forall b | b in s.consumers && b != c
      ensures WorkOk(s.stream, s.inbox, pushes, s.consumers[b])
    {
      assert WorkOk(s.stream, s.inbox, s.pushes, s.consumers[b]);
      assert FreshFor(s.stream, s.consumers[c], id);
      assert !FreshFor(s.stream, s.consumers[b], id);
    }
  }

  lemma ConsumerStepKeepsInbox(s: System, a: Action)
    requires InboxInv(s) && Enabled(s, a) && (a.Fetch? || a.Validate? || a.Precheck? || a.Claim? || a.Push? || a.Settle? || a.Drop?)
    ensures InboxInv(Effect(s, a))
  {
    var work := WorkOf(s, a.c);
    assert WorkOk(s.stream, s.inbox, s.pushes, work);
    match a
    case Fetch(c, at) => WorkKeepsInbox(s, c, Received(at));
    case Validate(c) =>
      if WellFormed(s.stream[work.at]) {
        WorkKeepsInbox(s, c, Accepted(work.at));
      } else {
        WorkKeepsInbox(s, c, Idle);
        SettlingKeepsInbox(s.(consumers := s.consumers[c := Idle]), work.at, Termed);
      }
    case Precheck(c) => WorkKeepsInbox(s, c, Effect(s, a).consumers[c]);
    case Claim(c) =>
      if s.stream[work.at].payload.id in s.inbox {
        WorkKeepsInbox(s, c, Done(work.at));
      } else {
        ClaimKeepsInbox(s, c, work.at);
      }
    case Push(c) => PushKeepsInbox(s, c, work.at);
    case Settle(c) =>
      WorkKeepsInbox(s, c, Idle);
      SettlingKeepsInbox(s.(consumers := s.consumers[c := Idle]), work.at, Acked);
    case Drop(c) => WorkKeepsInbox(s, c, Idle);
  }

  lemma StepKeepsInbox(s: System, a: Action)
    requires InboxInv(s)
    ensures InboxInv(Step(s, a))
  {
    if Enabled(s, a) {
      match a
      case Enqueue(_, _, _) =>
      case Foreign(m) => MessageKeepsInbox(s, m);
      case Begin(_, _, _) =>
      case Publish(w, outcome, _) =>
        var id := s.workers[w].todo[0];
        MessageKeepsInbox(s, Published(id, s.rows[id].event));
      case Commit(_) =>
      case Abort(_) =>
      case _ => ConsumerStepKeepsInbox(s, a);
    }
  }

  lemma {:induction false} RunKeepsInv(s: System, actions: seq<Action>)
    requires Inv(s)
    ensures Inv(Run(s, actions))
    decreases |actions|
  {
    if actions != [] {
      StepKeepsOutbox(s, actions[0]);
      StepKeepsInbox(s, actions[0]);
      RunKeepsInv(Step(s, actions[0]), actions[1..]);
    }
  }
}
