/** Exactly when a message comes to be PENDING outside every queue, read off the state before the step. Such a message
    is lost to its consumers: only a TTL sweep that finds it expired moves it on, to the dead-letter store. */
module LifecycleStranding {

  import opened Common
  import opened Dicts
  import opened Lifecycle
  import opened LifecycleInvariant
  import opened LifecycleRecords
  import opened LifecycleRuns
  import opened Requeueing
  import opened DeadLetters
  import opened TtlRuns
  import opened Finality

  // ---------- Who is refused ----------

  /** A single requeue puts the message nowhere: its queue is gone, does not take its body, or is full. */
  predicate NoRoom(queues: map<string, Queue>, e: Entry) {
    e.target !in queues || !e.bodyOk || Room(queues[e.target]) == 0
  }

  /** In a loop of requeues with entries `es`, entry `i` gets into no queue: its queue is missing, or its turn does not
      come before the loop has met a refusal, its own or another's. */
  predicate LeftOut(queues: map<string, Queue>, es: seq<Entry>, i: nat)
    requires i < |es|
  {
    es[i].target !in queues || i >= Passed(queues, es)
  }

  /** In a hand-back with entries `es`, entry `i` is released and gets into no queue: its turn comes, and its queue is
      missing or it is the first refused. */
  predicate ReleasedIntoNone(queues: map<string, Queue>, es: seq<Entry>, i: nat)
    requires i < |es|
  {
    i == Passed(queues, es) || (i < Passed(queues, es) && es[i].target !in queues)
  }

  /** `id` is entry `i` of `ids`. */
  predicate IsAt(ids: seq<string>, i: nat, id: string) {
    i < |ids| && ids[i] == id
  }

  /** The dead messages `ids` as they will be when revived. */
  function RevivedEntries(s: Broker, ids: seq<string>): (es: seq<Entry>)
    requires forall id :: id in ids ==> id in s.msgs.vals
    ensures |es| == |ids|
  {
    seq(|ids|, i requires 0 <= i < |ids| => assert ids[i] in ids; EntryOf(s.cfg, Revived(s.msgs.vals[ids[i]])))
  }

  ghost predicate SweepLoses(s: Broker, now: real, id: string) {
    var ids := Among(s.msgs.keys, Retried(s, now));
    && (forall j :: j in ids ==> j in s.msgs.vals)
    && exists i: nat :: IsAt(ids, i, id) && LeftOut(s.queues, Entries(s, ids), i)
  }

  ghost predicate HandBackLosesIt(s: Broker, consumer: string, id: string) {
    var held := Among(s.msgs.keys, Held(s, consumer));
    && (forall j :: j in held ==> j in s.msgs.vals)
    && exists i: nat :: IsAt(held, i, id) && ReleasedIntoNone(s.queues, Entries(s, held), i)
  }

  ghost predicate ReplayAllLoses(s: Broker, target: string, id: string) {
    var ids := DeadFrom(s, s.dlq, target);
    && (forall j :: j in ids ==> j in s.msgs.vals)
    && exists i: nat :: IsAt(ids, i, id) && LeftOut(s.queues, RevivedEntries(s, ids), i)
  }

  /** `c` takes the message `id` out of its place in `s` and puts it into no other. */
  ghost predicate Loses(s: Broker, c: Command, id: string) {
    match c
    case NackCmd(i, consumer) =>
      && i == id && HeldBy(s, id, consumer)
      && s.msgs.vals[id].retryCount < s.cfg.maxRetries && NoRoom(s.queues, EntryOf(s.cfg, s.msgs.vals[id]))
    case SweepCmd(now) => SweepLoses(s, now, id)
    case HandBackCmd(consumer) => HandBackLosesIt(s, consumer, id)
    case ReplayCmd(i) =>
      && i == id && id in s.dlq && id in s.msgs.vals
      && NoRoom(s.queues, EntryOf(s.cfg, Revived(s.msgs.vals[id])))
    case ReplayAllCmd(target) => ReplayAllLoses(s, target, id)
    case _ => false
  }

  /** `c` registers the new message `id` and puts it into no queue. */
  predicate StartsUnplaced(s: Broker, c: Command, id: string) {
    match c
    case SendCmd(queue, body, ms, _) =>
      id == NextId(s, ms) && (CheckBody(s.cfg, body).Err? || queue !in s.queues)
    case PublishCmd(_, topicExists, _, ms, _) => topicExists && id == NextId(s, ms)
    case RestoreCmd(i, _, _, _, _, _) => i == id && id !in s.msgs.vals
    case _ => false
  }

  /** The clause about bodies matters only after a TTL sweep: without one, whatever is requeued was in a queue
      before. */
  lemma BodiesFitWithoutTtl(s: Broker, id: string)
    requires Inv(s) && id in s.msgs.vals && (s.msgs.vals[id].status == Delivered || s.msgs.vals[id].status == Dead)
    ensures EntryOf(s.cfg, s.msgs.vals[id]).bodyOk
  {
    hide Inv;
    MovedBodyOk(s, id);
  }

  // ---------- NACK and REPLAY ----------

  lemma QueuedAfterRequeue(s: Broker, id: string, j: string)
    requires id in s.msgs.vals
    ensures Queued(Requeue(s, id).0, j) <==>
            Queued(s, j) || (j == id && !NoRoom(s.queues, EntryOf(s.cfg, s.msgs.vals[id])))
  {
    hide Requeue, CheckBody, Joining, Room;
    RequeueOne(s, id);
    if !NoRoom(s.queues, EntryOf(s.cfg, s.msgs.vals[id])) {
      QueuedAfterJoining(s, s.msgs.vals[id].target, [id], Requeue(s, id).0, j);
    }
  }

  lemma QueuedAfterJoining(s: Broker, target: string, ids: seq<string>, s': Broker, j: string)
    requires target in s.queues && s'.queues == Joining(s.queues, target, ids)
    ensures Queued(s', j) <==> Queued(s, j) || j in ids
  {
    if Queued(s, j) {
      var q :| q in s.queues && j in s.queues[q].items;
      assert q in s'.queues && j in s'.queues[q].items;
    }
    if j in ids {
      assert target in s'.queues && j in s'.queues[target].items;
    }
    if Queued(s', j) && j !in ids {
      var q :| q in s'.queues && j in s'.queues[q].items;
      assert q in s.queues && j in s.queues[q].items;
    }
  }

  /** A delivered or dead message is in no queue. */
  lemma OutOfQueues(s: Broker, id: string)
    requires InPlace(s) && id in s.msgs.vals && s.msgs.vals[id].status != Pending
    ensures !Queued(s, id)
  {
    if Queued(s, id) {
      OnlyPendingQueued(s, id);
    }
  }

  /** NACK strands a message exactly when its holder sends it with a retry left and the queue it came from is gone
      or full. */
  lemma NackStrands(s: Broker, id: string, consumer: string, j: string)
    requires InPlace(s)
    ensures Unplaced(Nack(s, id, consumer).0, j) <==> Unplaced(s, j) || Loses(s, NackCmd(id, consumer), j)
  {
    hide InPlace, CheckBody, Requeue, Queued, Fail, FailedMsg, NoRoom;
    if HeldBy(s, id, consumer) {
      OutOfQueues(s, id);
      FailShape(s, id);
      FailedStatus(s.cfg, s.msgs.vals[id]);
      var s1 := Fail(s, id);
      SameQueuesSameQueued(s, s1, j);
      if s1.msgs.vals[id].status == Pending {
        RequeueOne(s1, id);
        QueuedAfterRequeue(s1, id, j);
      }
    }
  }

  /** REPLAY strands a dead message exactly when its home queue is gone or full. */
  lemma ReplayStrands(s: Broker, id: string, j: string)
    requires InPlace(s)
    ensures Unplaced(Replay(s, id).0, j) <==> Unplaced(s, j) || Loses(s, ReplayCmd(id), j)
  {
    hide InPlace, CheckBody, Requeue, Queued, Unbury, NoRoom;
    DeadKeys(s);
    if id in s.dlq {
      OutOfQueues(s, id);
      UnburyShape(s, id);
      var s1 := Unbury(s, id);
      SameQueuesSameQueued(s, s1, j);
      RequeueOne(s1, id);
      QueuedAfterRequeue(s1, id, j);
    }
  }

  /** REPLAY_ALL strands exactly those at or behind the first that is refused, or all when the queue is gone. */
  lemma ReplayAllStrands(s: Broker, target: string, j: string)
    requires InPlace(s)
    ensures Unplaced(ReplayAll(s, target).0, j) <==> Unplaced(s, j) || Loses(s, ReplayAllCmd(target), j)
  {
    hide InPlace, Queued, UnburyEach, RequeueEach, DeadFrom, Passed, JoinedBy, CheckBody;
    var ids := DeadFrom(s, s.dlq, target);
    var s1 := UnburyEach(s, ids, |ids|);
    var s' := ReplayAll(s, target).0;
    ReplayAllOutcome(s, target);
    forall id | id in ids
      ensures !Queued(s1, id)
    {
      OutOfQueues(s, id);
      SameQueuesSameQueued(s, s1, id);
    }
    SameQueuesSameQueued(s, s1, j);
    if j in ids {
      var i :| 0 <= i < |ids| && ids[i] == j;
      LoopedIsQueued(s1, ids, s', i);
      OnlyAt(ids, i, j);
      assert IsAt(ids, i, j);
    } else {
      OthersKeepQueue(s1, ids, s', j);
    }
  }

  lemma ReplayAllOutcome(s: Broker, target: string)
    requires InPlace(s)
    ensures var ids := DeadFrom(s, s.dlq, target);
            var s1 := UnburyEach(s, ids, |ids|);
            var s' := ReplayAll(s, target).0;
            && NoDup(ids) && (forall id :: id in ids ==> id in s.msgs.vals && s.msgs.vals[id].status == Dead)
            && s1.queues == s.queues && s1.cfg == s.cfg
            && s'.msgs == s1.msgs && s'.msgs.vals.Keys == s.msgs.vals.Keys
            && (forall id :: id in s.msgs.vals ==>
                  s'.msgs.vals[id] == if id in ids then Revived(s.msgs.vals[id]) else s.msgs.vals[id])
            && Entries(s1, ids) == RevivedEntries(s, ids)
            && JoinedBy(s1.queues, ids, Entries(s1, ids), Passed(s1.queues, Entries(s1, ids)), s'.queues)
  {
    hide InPlace, UnburyEach, RequeueEach, DeadFrom, Passed, JoinedBy, Revived, CheckBody;
    var ids := DeadFrom(s, s.dlq, target);
    DeadKeys(s);
    DeadFromExact(s, s.dlq, target);
    UnburyEachExact(s, ids, |ids|);
    assert ids[..|ids|] == ids;
    RequeueEachOutcome(UnburyEach(s, ids, |ids|), ids);
    ReplayAllRegistry(s, target);
  }

  /** Distinct ids stand in one position each. */
  lemma OnlyAt(ids: seq<string>, i: nat, id: string)
    requires NoDup(ids) && IsAt(ids, i, id)
    ensures forall k: nat :: IsAt(ids, k, id) ==> k == i
  {
  }

  lemma ReplayAllRegistry(s: Broker, target: string)
    ensures ReplayAll(s, target).0.msgs.vals.Keys == s.msgs.vals.Keys
  {
  }

  // ---------- The ACK-timeout sweep and hand-back ----------

  /** After the entries that passed have joined, an entry of the loop is queued exactly when it passed and its queue
      exists. */
  lemma LoopedIsQueued(s: Broker, ids: seq<string>, s': Broker, i: nat)
    requires NoDup(ids) && i < |ids| && (forall j :: j in ids ==> j in s.msgs.vals) && !Queued(s, ids[i])
    requires var es := Entries(s, ids); JoinedBy(s.queues, ids, es, Passed(s.queues, es), s'.queues)
    ensures var es := Entries(s, ids);
            Queued(s', ids[i]) <==> i < Passed(s.queues, es) && es[i].target in s.queues
  {
    hide Queued, Passed, JoinedBy;
    var es := Entries(s, ids);
    QueuedAfterJoin(s, ids, es, Passed(s.queues, es), s', ids[i]);
  }

  lemma OthersKeepQueue(s: Broker, ids: seq<string>, s': Broker, id: string)
    requires (forall j :: j in ids ==> j in s.msgs.vals) && id !in ids
    requires var es := Entries(s, ids); JoinedBy(s.queues, ids, es, Passed(s.queues, es), s'.queues)
    ensures Queued(s', id) <==> Queued(s, id)
  {
    hide Queued, Passed, JoinedBy;
    var es := Entries(s, ids);
    QueuedAfterJoin(s, ids, es, Passed(s.queues, es), s', id);
  }

  lemma SweepOutcome(s: Broker, now: real)
    requires InPlace(s)
    ensures var ids := Among(s.msgs.keys, Retried(s, now));
            var s' := Sweep(s, now);
            && NoDup(ids) && (forall id :: id in ids ==> id in s.msgs.vals && s.msgs.vals[id].status == Delivered)
            && (forall id :: id in ids <==> id in Retried(s, now))
            && s'.msgs.vals.Keys == s.msgs.vals.Keys
            && (forall id :: id in s.msgs.vals ==>
                  s'.msgs.vals[id] ==
                  if Overdue(s, id, now) then FailedMsg(s.cfg, s.msgs.vals[id]) else s.msgs.vals[id])
            && var es := Entries(s, ids);
               JoinedBy(s.queues, ids, es, Passed(s.queues, es), s'.queues)
  {
    hide InPlace, Queued, CheckBody, CheckTimeouts, RequeuePending, RequeueEach, Passed, JoinedBy, FailedMsg, Among,
      SameIds;
    KeptValid(s);
    var ids := Among(s.msgs.keys, Retried(s, now));
    var n := |s.msgs.keys|;
    assert s.msgs.keys[..n] == s.msgs.keys;
    CheckTimeoutsExact(s, n, now);
    AmongExact(s.msgs.keys, Retried(s, now));
    var (s1, expired) := CheckTimeouts(s, n, now);
    forall id | id in ids
      ensures id in s1.msgs.vals && s1.msgs.vals[id].status == Pending
      ensures EntryOf(s1.cfg, s1.msgs.vals[id]) == EntryOf(s.cfg, s.msgs.vals[id])
    {
      FailedStatus(s.cfg, s.msgs.vals[id]);
    }
    RequeuePendingIsEach(s1, ids);
    RequeueEachOutcome(s1, ids);
    assert Entries(s1, ids) == Entries(s, ids);
    SweepRegistry(s, now);
  }

  lemma SweepRegistry(s: Broker, now: real)
    ensures Sweep(s, now).msgs.vals.Keys == s.msgs.vals.Keys
  {
  }

  /** The ACK-timeout sweep strands exactly the overdue messages with a retry left whose queue is gone, or that come
      at or behind the first that is refused. */
  lemma SweepStrands(s: Broker, now: real, j: string)
    requires InPlace(s)
    ensures Unplaced(Sweep(s, now), j) <==> Unplaced(s, j) || Loses(s, SweepCmd(now), j)
  {
    hide InPlace, Queued, Sweep, Passed, JoinedBy, FailedMsg, Among, TimedOut;
    SweepOutcome(s, now);
    var ids := Among(s.msgs.keys, Retried(s, now));
    var s' := Sweep(s, now);
    if j in s.msgs.vals {
      FailedStatus(s.cfg, s.msgs.vals[j]);
      if j in ids {
        OutOfQueues(s, j);
        var i :| 0 <= i < |ids| && ids[i] == j;
        LoopedIsQueued(s, ids, s', i);
        OnlyAt(ids, i, j);
        assert IsAt(ids, i, j);
      } else {
        OthersKeepQueue(s, ids, s', j);
        if Overdue(s, j, now) {
          OverdueIsDelivered(s, j, now);
        }
      }
    }
  }

  lemma OverdueIsDelivered(s: Broker, id: string, now: real)
    requires Overdue(s, id, now)
    ensures s.msgs.vals[id].status == Delivered
  {
  }

  /** Hand-back strands exactly the released messages whose queue is gone, and the first that is refused. */
  lemma HandBackStrands(s: Broker, consumer: string, j: string)
    requires InPlace(s)
    ensures Unplaced(HandBack(s, consumer), j) <==> Unplaced(s, j) || Loses(s, HandBackCmd(consumer), j)
  {
    hide InPlace, Queued, HandBackEach, Passed, JoinedBy, Among, CheckBody;
    KeptValid(s);
    var held := Among(s.msgs.keys, Held(s, consumer));
    var s' := HandBack(s, consumer);
    AmongExact(s.msgs.keys, Held(s, consumer));
    forall id | id in held
      ensures id in s.msgs.vals && !Queued(s, id)
    {
      OutOfQueues(s, id);
    }
    HandBackEachOutcome(s, s.msgs.keys, consumer, Held(s, consumer));
    HandedBackStrands(s, held, s', j);
  }

  lemma HandedBackStrands(s: Broker, held: seq<string>, s': Broker, j: string)
    requires NoDup(held) && HandedBackUpTo(s, held, s')
    requires forall id :: id in held ==> !Queued(s, id) && s.msgs.vals[id].status == Delivered
    ensures Unplaced(s', j) <==>
            Unplaced(s, j) || exists i: nat :: IsAt(held, i, j) && ReleasedIntoNone(s.queues, Entries(s, held), i)
  {
    hide Queued, Passed, JoinedBy;
    var k := Min(Passed(s.queues, Entries(s, held)) + 1, |held|);
    if j in held {
      var i :| 0 <= i < |held| && held[i] == j;
      LoopedIsQueued(s, held, s', i);
      InPrefix(held, k, i);
      OnlyAt(held, i, j);
      assert IsAt(held, i, j);
    } else {
      OthersKeepQueue(s, held, s', j);
    }
  }

  lemma InPrefix(ids: seq<string>, k: nat, i: nat)
    requires NoDup(ids) && k <= |ids| && i < |ids|
    ensures ids[i] in ids[..k] <==> i < k
  {
    if i < k {
      assert ids[..k][i] == ids[i];
    }
  }

  // ---------- Every command ----------

  /** No message moves between the queues and the rest, and a record that changes was not PENDING and is not now. */
  ghost predicate Quiet(s: Broker, s': Broker) {
    && s'.msgs.vals.Keys == s.msgs.vals.Keys
    && (forall j :: j in s.msgs.vals && s'.msgs.vals[j] != s.msgs.vals[j] ==>
          s.msgs.vals[j].status != Pending && s'.msgs.vals[j].status != Pending)
    && (forall q :: q in s'.queues && s'.queues[q].items != [] ==>
          q in s.queues && s'.queues[q].items == s.queues[q].items)
    && (forall q :: q in s.queues && s.queues[q].items != [] ==>
          q in s'.queues && s'.queues[q].items == s.queues[q].items)
  }

  lemma QuietStrandsNone(s: Broker, s': Broker, j: string)
    requires Quiet(s, s')
    ensures Unplaced(s', j) <==> Unplaced(s, j)
  {
    if Queued(s, j) {
      var q :| q in s.queues && j in s.queues[q].items;
      assert q in s'.queues && j in s'.queues[q].items;
    }
    if Queued(s', j) {
      var q :| q in s'.queues && j in s'.queues[q].items;
      assert q in s.queues && j in s.queues[q].items;
    }
  }

  lemma QuietThen(s0: Broker, s1: Broker, s2: Broker)
    requires Quiet(s0, s1) && Quiet(s1, s2)
    ensures Quiet(s0, s2)
  {
  }

  lemma ConfirmIsQuiet(s: Broker, id: string)
    requires id in s.msgs.vals && s.msgs.vals[id].status != Pending
    ensures Quiet(s, Confirm(s, id))
  {
  }

  lemma {:induction false} AckEachIsQuiet(s: Broker, ids: seq<string>, n: nat, consumer: string)
    requires n <= |ids|
    ensures Quiet(s, AckEach(s, ids, n, consumer).0)
  {
    hide Confirm, Quiet, SameIds;
    if n == 0 {
      SameIsQuiet(s);
    } else {
      AckEachIsQuiet(s, ids, n - 1, consumer);
      var s1 := AckEach(s, ids, n - 1, consumer).0;
      if ids[n - 1] in s1.msgs.vals && AckCheck(s1.msgs.vals[ids[n - 1]], consumer) == AckOk {
        ConfirmIsQuiet(s1, ids[n - 1]);
        QuietThen(s, s1, Confirm(s1, ids[n - 1]));
      }
    }
  }

  lemma SameIsQuiet(s: Broker)
    ensures Quiet(s, s)
  {
  }

  lemma AckIsQuiet(s: Broker, id: string, consumer: string)
    ensures Quiet(s, Ack(s, id, consumer).0)
  {
    hide Confirm, Quiet;
    SameIsQuiet(s);
    if id in s.msgs.vals && AckCheck(s.msgs.vals[id], consumer) == AckOk {
      ConfirmIsQuiet(s, id);
    }
  }

  lemma QueueCommandsAreQuiet(s: Broker, c: Command)
    requires c.CreateQueueCmd? || c.DeleteQueueCmd?
    ensures Quiet(s, Step(s, c))
  {
    hide ValidName;
  }

  lemma OffsetsAreQuiet(s: Broker, c: Command)
    requires c.FetchCmd? || c.SetOffsetCmd?
    ensures Quiet(s, Step(s, c))
  {
    hide OffsetKey, OffsetOf, TopicIds, Quiet;
    assert Step(s, c).msgs == s.msgs && Step(s, c).queues == s.queues;
    QuietByFields(s, Step(s, c));
  }

  lemma QuietByFields(s: Broker, s': Broker)
    requires s'.msgs == s.msgs && s'.queues == s.queues
    ensures Quiet(s, s')
  {
  }

  lemma ConsumeStrandsNone(s: Broker, queue: string, consumer: string, now: real, j: string)
    requires InPlace(s)
    ensures Unplaced(Consume(s, queue, consumer, now).0, j) <==> Unplaced(s, j)
  {
    var s' := Consume(s, queue, consumer, now).0;
    if queue in s.queues && s.queues[queue].items != [] {
      var head := s.queues[queue].items[0];
      assert head in s.queues[queue].items;
      if j == head {
        assert Queued(s, j);
      } else {
        OthersStayQueued(s, queue, s', j);
      }
    } else {
      assert s' == s;
    }
  }

  lemma OthersStayQueued(s: Broker, queue: string, s': Broker, j: string)
    requires queue in s.queues && s.queues[queue].items != [] && j != s.queues[queue].items[0]
    requires s'.queues == s.queues[queue := s.queues[queue].(items := s.queues[queue].items[1..])]
    ensures Queued(s', j) <==> Queued(s, j)
  {
    var items := s.queues[queue].items;
    assert items == [items[0]] + items[1..];
    if Queued(s, j) {
      var q :| q in s.queues && j in s.queues[q].items;
      assert q in s'.queues && j in s'.queues[q].items;
    }
    if Queued(s', j) {
      var q :| q in s'.queues && j in s'.queues[q].items;
      assert q in s.queues && j in s.queues[q].items;
    }
  }

  lemma UnknownNotQueued(s: Broker, id: string)
    requires InPlace(s) && id !in s.msgs.vals
    ensures !Queued(s, id)
  {
    if Queued(s, id) {
      OnlyPendingQueued(s, id);
    }
  }

  /** One message more, PENDING and in no queue. */
  lemma NewMessageUnplaced(s: Broker, m: Msg, s': Broker, j: string)
    requires InPlace(s) && m.id !in s.msgs.vals && m.status == Pending
    requires s'.msgs.vals == s.msgs.vals[m.id := m] && s'.queues == s.queues
    ensures Unplaced(s', j) <==> Unplaced(s, j) || j == m.id
  {
    hide InPlace, Queued;
    UnknownNotQueued(s, m.id);
    SameQueuesSameQueued(s, s', j);
  }

  /** One message more, PENDING, at the tail of its queue. */
  lemma NewMessagePlaced(s: Broker, m: Msg, s': Broker, j: string)
    requires InPlace(s) && m.id !in s.msgs.vals && m.target in s.queues
    requires s'.msgs.vals == s.msgs.vals[m.id := m] && s'.queues == Joining(s.queues, m.target, [m.id])
    ensures Unplaced(s', j) <==> Unplaced(s, j)
  {
    hide InPlace, Queued, Joining;
    QueuedAfterJoining(s, m.target, [m.id], s', j);
  }

  lemma SendStrands(s: Broker, queue: string, body: string, ms: nat, seconds: int, j: string)
    requires InPlace(s) && NextId(s, ms) !in s.msgs.vals
    ensures Unplaced(Send(s, queue, body, ms, seconds).0, j) <==>
            Unplaced(s, j) || StartsUnplaced(s, SendCmd(queue, body, ms, seconds), j)
  {
    hide InPlace, NextId, CheckBody, Send, Queued;
    KeptValid(s);
    SendOutcome(s, queue, body, ms, seconds);
    var s' := Send(s, queue, body, ms, seconds).0;
    var m := NewMsg(NextId(s, ms), queue, body, seconds, 0, 0);
    if CheckBody(s.cfg, body).Err? || queue !in s.queues {
      NewMessageUnplaced(s, m, s', j);
    } else if |s.queues[queue].items| >= s.queues[queue].maxSize {
      SameQueuesSameQueued(s, s', j);
    } else {
      NewMessagePlaced(s, m, s', j);
    }
  }

  lemma RegisterStrands(s: Broker, c: Command, j: string)
    requires InPlace(s) && Enabled(s, c) && (c.PublishCmd? || c.RestoreCmd?)
    ensures Unplaced(Step(s, c), j) <==> Unplaced(s, j) || StartsUnplaced(s, c, j)
  {
    hide InPlace, NextId, Queued;
    if c.PublishCmd? && c.topicExists {
      NewMessageUnplaced(s, NewMsg(NextId(s, c.ms), c.topic, c.body, c.seconds, 0, 0), Step(s, c), j);
    }
    if c.RestoreCmd? && c.id !in s.msgs.vals {
      NewMessageUnplaced(s, NewMsg(c.id, c.target, c.body, c.timestamp, c.ttl, c.ackTimeout), Step(s, c), j);
    }
  }

  /** The unplaced messages after any command or sweep are those before it, those it loses, and the new one if it
      starts in no queue. */
  lemma StepStrands(s: Broker, c: Command, id: string)
    requires InPlace(s) && Enabled(s, c)
    ensures Unplaced(Step(s, c), id) <==> Unplaced(s, id) || Loses(s, c, id) || StartsUnplaced(s, c, id)
  {
    hide InPlace, Unplaced, Loses, StartsUnplaced, Quiet, Send, Publish, Restore, Consume, Ack, Nack, Sweep, Replay,
      ReplayAll, AckEach, HandBackEach, FetchTopic, CreateQueue, DeleteQueue, SetOffset, NextId;
    match c {
      case ConsumeCmd(queue, consumer, now) => ConsumeStrandsNone(s, queue, consumer, now, id);
      case NackCmd(i, consumer) => NackStrands(s, i, consumer, id);
      case SweepCmd(now) => SweepStrands(s, now, id);
      case HandBackCmd(consumer) => HandBackStrands(s, consumer, id);
      case ReplayCmd(i) => ReplayStrands(s, i, id);
      case ReplayAllCmd(target) => ReplayAllStrands(s, target, id);
      case AckCmd(i, consumer) => AckIsQuiet(s, i, consumer); QuietStrandsNone(s, Step(s, c), id);
      case AckBatchCmd(ids, consumer) =>
        AckBatchIsAckEach(s, ids, consumer);
        AckEachIsQuiet(s, ids, |ids|, consumer);
        QuietStrandsNone(s, Step(s, c), id);
      case SendCmd(queue, body, ms, seconds) => SendStrands(s, queue, body, ms, seconds, id);
      case PublishCmd(_, _, _, _, _) => RegisterStrands(s, c, id);
      case RestoreCmd(_, _, _, _, _, _) => RegisterStrands(s, c, id);
      case CreateQueueCmd(_, _) => QueueCommandsAreQuiet(s, c); QuietStrandsNone(s, Step(s, c), id);
      case DeleteQueueCmd(_) => QueueCommandsAreQuiet(s, c); QuietStrandsNone(s, Step(s, c), id);
      case FetchCmd(_, _) => OffsetsAreQuiet(s, c); QuietStrandsNone(s, Step(s, c), id);
      case SetOffsetCmd(_, _, _) => OffsetsAreQuiet(s, c); QuietStrandsNone(s, Step(s, c), id);
    }
    NeverBoth(s, c, id);
  }

  /** Which of the two reasons applies is fixed by the kind of command. */
  lemma NeverBoth(s: Broker, c: Command, id: string)
    ensures c.NackCmd? || c.SweepCmd? || c.HandBackCmd? || c.ReplayCmd? || c.ReplayAllCmd? ==> !StartsUnplaced(s, c, id)
    ensures c.SendCmd? || c.PublishCmd? || c.RestoreCmd? ==> !Loses(s, c, id)
    ensures c.CreateQueueCmd? || c.DeleteQueueCmd? || c.ConsumeCmd? || c.AckCmd? || c.AckBatchCmd? ==>
              !Loses(s, c, id) && !StartsUnplaced(s, c, id)
    ensures c.FetchCmd? || c.SetOffsetCmd? ==> !Loses(s, c, id) && !StartsUnplaced(s, c, id)
  {
  }

  // ---------- Whole runs ----------

  /** After the first `n` actions of the run `id` is unplaced, newly so unless `n` is 0. */
  ghost predicate UnplacedAt(s: Broker, acts: seq<Action>, n: nat, id: string)
    requires n <= |acts|
  {
    if n == 0 then Unplaced(s, id)
    else
      && acts[n - 1].Cmd?
      && (Loses(ActAll(s, acts[..n - 1]), acts[n - 1].c, id) ||
          StartsUnplaced(ActAll(s, acts[..n - 1]), acts[n - 1].c, id))
  }

  /** At some point of the run `id` became unplaced, and no TTL sweep behind it finds the record of then expired. */
  ghost predicate EndsUnplaced(s: Broker, acts: seq<Action>, id: string) {
    exists n :: 0 <= n <= |acts| && UnplacedAt(s, acts, n, id) && UndisturbedFrom(s, acts, n, id)
  }

  ghost predicate UndisturbedFrom(s: Broker, acts: seq<Action>, n: nat, id: string)
    requires n <= |acts|
  {
    var s1 := ActAll(s, acts[..n]);
    id in s1.msgs.vals && !Lapses(s.cfg, s1.msgs.vals[id], acts[n..])
  }

  /** Any action, TTL sweeps included: the unplaced messages after it. */
  lemma ActStrands(s: Broker, a: Action, id: string)
    requires InPlace(s) && (a.Cmd? ==> Enabled(s, a.c))
    ensures Unplaced(Act(s, a), id) <==>
            if a.Cmd? then Unplaced(s, id) || Loses(s, a.c, id) || StartsUnplaced(s, a.c, id)
            else Unplaced(s, id) && !TtlExpired(s.cfg, s.msgs.vals[id], a.now)
  {
    hide InPlace, Step, TtlSweep, Enabled, Loses, StartsUnplaced, TtlExpired;
    match a {
      case Cmd(c) => StepStrands(s, c, id);
      case TtlSweepAt(now) =>
        KeptValid(s);
        TtlSweepUnplaces(s, now, id);
    }
  }

  lemma PrefixKept(s: Broker, acts: seq<Action>, n: nat)
    requires InPlace(s) && FreshIds(s, acts) && AllHarmless(s, acts) && n <= |acts|
    ensures InPlace(ActAll(s, acts[..n])) && ActAll(s, acts[..n]).cfg == s.cfg
    ensures FreshIds(ActAll(s, acts[..n]), acts[n..])
    ensures ActAll(s, acts) == ActAll(ActAll(s, acts[..n]), acts[n..])
  {
    hide InPlace, ActAll, Enabled, Harmless, FreshIds, AllHarmless;
    FreshSplit(s, acts, n);
    RunKept(s, acts[..n]);
    CfgStays(s, acts[..n]);
    assert acts == acts[..n] + acts[n..];
    ActAllSplit(s, acts[..n], acts[n..]);
  }

  lemma FreshSplit(s: Broker, acts: seq<Action>, n: nat)
    requires FreshIds(s, acts) && AllHarmless(s, acts) && n <= |acts|
    ensures FreshIds(s, acts[..n]) && AllHarmless(s, acts[..n]) && FreshIds(ActAll(s, acts[..n]), acts[n..])
  {
    hide ActAll, Enabled, Harmless;
    forall k | 0 <= k < n
      ensures acts[..n][..k] == acts[..k]
      ensures Harmless(ActAll(s, acts[..n][..k]), acts[..n][k])
    {
      assert acts[..n][..k] == acts[..k];
      assert Harmless(ActAll(s, acts[..k]), acts[k]);
    }
    forall k | 0 <= k < |acts| - n && acts[n..][k].Cmd?
      ensures Enabled(ActAll(ActAll(s, acts[..n]), acts[n..][..k]), acts[n..][k].c)
    {
      assert acts[..n] + acts[n..][..k] == acts[..n + k];
      ActAllSplit(s, acts[..n], acts[n..][..k]);
      assert Enabled(ActAll(s, acts[..n + k]), acts[n + k].c);
    }
  }

  lemma {:induction false} CfgStays(s: Broker, acts: seq<Action>)
    ensures ActAll(s, acts).cfg == s.cfg
  {
    hide Act;
    if acts != [] {
      var n := |acts| - 1;
      CfgStays(s, acts[..n]);
      ActCfg(ActAll(s, acts[..n]), acts[n]);
    }
  }

  /** No step changes the configuration or forgets an id. */
  lemma ActCfg(s: Broker, a: Action)
    ensures Act(s, a).cfg == s.cfg
    ensures s.msgs.Valid() && (a.Cmd? ==> Enabled(s, a.c)) ==>
              Act(s, a).msgs.Valid() && forall id :: id in s.msgs.vals ==> id in Act(s, a).msgs.vals
  {
    hide Step, TtlSweep, Enabled;
    if a.Cmd? {
      StepCfg(s, a.c);
    }
  }

  lemma StepCfg(s: Broker, c: Command)
    ensures Step(s, c).cfg == s.cfg
    ensures s.msgs.Valid() && Enabled(s, c) ==>
              Step(s, c).msgs.Valid() && forall id :: id in s.msgs.vals ==> id in Step(s, c).msgs.vals
  {
    hide NextId, CheckBody, Send, Consume, Ack, AckBatch, Nack, Sweep, HandBack, Replay, ReplayAll, FetchTopic,
      CreateQueue, DeleteQueue, SetOffset;
    if c.SendCmd? {
      SendCfg(s, c.queue, c.body, c.ms, c.seconds);
    }
  }

  lemma SendCfg(s: Broker, queue: string, body: string, ms: nat, seconds: int)
    ensures Send(s, queue, body, ms, seconds).0.cfg == s.cfg
    ensures s.msgs.Valid() && NextId(s, ms) !in s.msgs.vals ==>
              var s' := Send(s, queue, body, ms, seconds).0;
              s'.msgs.Valid() && forall id :: id in s.msgs.vals ==> id in s'.msgs.vals
  {
    SendKeepsCfg(s, queue, body, ms, seconds);
    if s.msgs.Valid() && NextId(s, ms) !in s.msgs.vals {
      SendKeepsIds(s, queue, body, ms, seconds);
    }
  }

  lemma SendKeepsCfg(s: Broker, queue: string, body: string, ms: nat, seconds: int)
    ensures Send(s, queue, body, ms, seconds).0.cfg == s.cfg
  {
    hide NextId, CheckBody;
  }

  lemma SendKeepsIds(s: Broker, queue: string, body: string, ms: nat, seconds: int)
    requires s.msgs.Valid() && NextId(s, ms) !in s.msgs.vals
    ensures var s' := Send(s, queue, body, ms, seconds).0;
            s'.msgs.Valid() && forall id :: id in s.msgs.vals ==> id in s'.msgs.vals
  {
    hide NextId, CheckBody, Send;
    SendForms(s, queue, body, ms, seconds);
  }

  /** Over a whole run with TTL sweeps: a message is unplaced at the end exactly when at some point it was so from the
      start, or a step, in the state it met, lost it or started it so, and since then no TTL sweep found it expired. */
  lemma {:induction false} RunStrands(s: Broker, acts: seq<Action>, id: string)
    requires InPlace(s) && FreshIds(s, acts) && AllHarmless(s, acts)
    ensures Unplaced(ActAll(s, acts), id) <==> EndsUnplaced(s, acts, id)
    decreases |acts|
  {
    hide ActAll, InPlace, FreshIds, AllHarmless, EndsUnplaced;
    if Unplaced(ActAll(s, acts), id) {
      StrandedSomewhere(s, acts, id);
    }
    if EndsUnplaced(s, acts, id) {
      StaysUnplaced(s, acts, id);
    }
  }

  lemma StaysUnplaced(s: Broker, acts: seq<Action>, id: string)
    requires InPlace(s) && FreshIds(s, acts) && AllHarmless(s, acts) && EndsUnplaced(s, acts, id)
    ensures Unplaced(ActAll(s, acts), id)
  {
    hide ActAll, InPlace, FreshIds, AllHarmless, Lapses, Loses, StartsUnplaced, RestsThroughout, AtRest;
    var n :| 0 <= n <= |acts| && UnplacedAt(s, acts, n, id) && UndisturbedFrom(s, acts, n, id);
    PrefixKept(s, acts, n);
    BecomesUnplaced(s, acts, n, id);
    var s1 := ActAll(s, acts[..n]);
    UnplacedAtRest(s1, id);
    RestsUntilLapse(s1, acts[n..], id);
    RestsAtEnd(s1, acts[n..], id);
    RestingIsUnplaced(s1, ActAll(s, acts), id);
  }

  lemma UnplacedAtRest(s: Broker, id: string)
    requires InPlace(s) && Unplaced(s, id)
    ensures AtRest(s, id)
  {
  }

  lemma RestingIsUnplaced(s0: Broker, s: Broker, id: string)
    requires Unplaced(s0, id) && Rests(s0, s, id)
    ensures Unplaced(s, id) && s.msgs.vals[id] == s0.msgs.vals[id]
  {
  }

  lemma BecomesUnplaced(s: Broker, acts: seq<Action>, n: nat, id: string)
    requires InPlace(s) && FreshIds(s, acts) && AllHarmless(s, acts)
    requires n <= |acts| && UnplacedAt(s, acts, n, id)
    ensures Unplaced(ActAll(s, acts[..n]), id)
  {
    hide ActAll, InPlace, FreshIds, AllHarmless, Loses, StartsUnplaced, Act, Enabled, Unplaced;
    if n == 0 {
      ActNothing(s, acts[..0]);
    } else {
      PrefixKept(s, acts, n - 1);
      EnabledThere(s, acts, n - 1);
      assert acts[..n][..n - 1] == acts[..n - 1];
      ActAllLast(s, acts[..n]);
      ActStrands(ActAll(s, acts[..n - 1]), acts[n - 1], id);
    }
  }

  lemma ActNothing(s: Broker, acts: seq<Action>)
    requires acts == []
    ensures ActAll(s, acts) == s
  {
  }

  lemma EnabledThere(s: Broker, acts: seq<Action>, n: nat)
    requires FreshIds(s, acts) && n < |acts|
    ensures acts[n].Cmd? ==> Enabled(ActAll(s, acts[..n]), acts[n].c)
  {
    hide ActAll, Enabled;
  }

  lemma {:induction false} StrandedSomewhere(s: Broker, acts: seq<Action>, id: string)
    requires InPlace(s) && FreshIds(s, acts) && AllHarmless(s, acts) && Unplaced(ActAll(s, acts), id)
    ensures EndsUnplaced(s, acts, id)
    decreases |acts|
  {
    hide ActAll, InPlace, FreshIds, AllHarmless, Lapses, Loses, StartsUnplaced, Act, Enabled, EndsUnplaced, TtlExpired;
    if acts == [] {
      ActNothing(s, acts);
      UnplacedNow(s, acts, id);
    } else {
      var n := |acts| - 1;
      AllButLast(s, acts);
      PrefixKept(s, acts, n);
      ActAllLast(s, acts);
      var mid := ActAll(s, acts[..n]);
      ActStrands(mid, acts[n], id);
      if acts[n].Cmd? && (Loses(mid, acts[n].c, id) || StartsUnplaced(mid, acts[n].c, id)) {
        UnplacedNow(s, acts, id);
      } else {
        StrandedSomewhere(s, acts[..n], id);
        UnplacedStill(s, acts, id);
      }
    }
  }

  lemma UnplacedNow(s: Broker, acts: seq<Action>, id: string)
    requires UnplacedAt(s, acts, |acts|, id) && Unplaced(ActAll(s, acts), id)
    ensures EndsUnplaced(s, acts, id)
  {
    hide ActAll, TtlExpired, UnplacedAt;
    assert acts[..|acts|] == acts && acts[|acts|..] == [];
    assert UndisturbedFrom(s, acts, |acts|, id);
  }

  lemma UnplacedStill(s: Broker, acts: seq<Action>, id: string)
    requires InPlace(s) && FreshIds(s, acts) && AllHarmless(s, acts)
    requires acts != [] && EndsUnplaced(s, acts[..|acts| - 1], id) && Unplaced(ActAll(s, acts[..|acts| - 1]), id)
    requires var n := |acts| - 1;
             acts[n].TtlSweepAt? ==>
               !TtlExpired(s.cfg, ActAll(s, acts[..n]).msgs.vals[id], acts[n].now)
    ensures EndsUnplaced(s, acts, id)
  {
    hide ActAll, InPlace, FreshIds, AllHarmless, Lapses, Loses, StartsUnplaced, TtlExpired, RestsThroughout, AtRest,
      Rests;
    var n := |acts| - 1;
    var before := acts[..n];
    var k :| 0 <= k <= n && UnplacedAt(s, before, k, id) && UndisturbedFrom(s, before, k, id);
    assert before[..k] == acts[..k];
    FreshSplit(s, acts, n);
    PrefixKept(s, before, k);
    BecomesUnplaced(s, before, k, id);
    var s1 := ActAll(s, acts[..k]);
    UnplacedAtRest(s1, id);
    RestsUntilLapse(s1, before[k..], id);
    RestsAtEnd(s1, before[k..], id);
    RestingIsUnplaced(s1, ActAll(s, before), id);
    assert acts[k..][..n - k] == before[k..] && acts[k..][n - k] == acts[n];
    LapsesLast(s.cfg, s1.msgs.vals[id], acts[k..]);
    assert k > 0 ==> before[..k - 1] == acts[..k - 1] && before[k - 1] == acts[k - 1];
    assert UnplacedAt(s, acts, k, id) && UndisturbedFrom(s, acts, k, id);
  }

  /** From the empty broker: what is unplaced at the end of a run some step of it left so. */
  lemma UnplacedInRun(cfg: Config, acts: seq<Action>, id: string)
    requires FreshIds(Start(cfg), acts) && AllHarmless(Start(cfg), acts)
    ensures Unplaced(ActAll(Start(cfg), acts), id) <==>
            exists n :: 0 < n <= |acts| && UnplacedAt(Start(cfg), acts, n, id) &&
                        UndisturbedFrom(Start(cfg), acts, n, id)
  {
    hide ActAll, FreshIds, AllHarmless, UndisturbedFrom, Loses, StartsUnplaced;
    StartKept(cfg);
    RunStrands(Start(cfg), acts, id);
    assert !UnplacedAt(Start(cfg), acts, 0, id);
  }

  /** A registered message that has a place is without one at the end exactly when some step lost it, and since then
      no TTL sweep found it expired. */
  lemma NeverStranded(s: Broker, acts: seq<Action>, id: string)
    requires InPlace(s) && FreshIds(s, acts) && AllHarmless(s, acts)
    requires id in s.msgs.vals && !Unplaced(s, id)
    ensures Unplaced(ActAll(s, acts), id) <==>
            exists n :: 0 <= n < |acts| && acts[n].Cmd? && Loses(ActAll(s, acts[..n]), acts[n].c, id) &&
                        UndisturbedFrom(s, acts, n + 1, id)
  {
    hide ActAll, FreshIds, AllHarmless, InPlace, Unplaced, UndisturbedFrom, Loses, StartsUnplaced, Enabled;
    RunStrands(s, acts, id);
    forall n | 0 <= n < |acts| && acts[n].Cmd?
      ensures !StartsUnplaced(ActAll(s, acts[..n]), acts[n].c, id)
    {
      FreshSplit(s, acts, n);
      EnabledThere(s, acts, n);
      KeptValid(s);
      StillRegistered(s, acts[..n], id);
      RegisteredStartsNot(ActAll(s, acts[..n]), acts[n].c, id);
    }
    if EndsUnplaced(s, acts, id) {
      var n :| 0 <= n <= |acts| && UnplacedAt(s, acts, n, id) && UndisturbedFrom(s, acts, n, id);
      assert n > 0;
      assert Loses(ActAll(s, acts[..n - 1]), acts[n - 1].c, id) && UndisturbedFrom(s, acts, n - 1 + 1, id);
    }
    if n :| 0 <= n < |acts| && acts[n].Cmd? && Loses(ActAll(s, acts[..n]), acts[n].c, id) &&
            UndisturbedFrom(s, acts, n + 1, id) {
      assert UnplacedAt(s, acts, n + 1, id);
    }
  }

  lemma RegisteredStartsNot(s: Broker, c: Command, id: string)
    requires id in s.msgs.vals && Enabled(s, c)
    ensures !StartsUnplaced(s, c, id)
  {
    hide NextId, CheckBody;
  }

  lemma {:induction false} StillRegistered(s: Broker, acts: seq<Action>, id: string)
    requires s.msgs.Valid() && FreshIds(s, acts) && id in s.msgs.vals
    ensures ActAll(s, acts).msgs.Valid() && id in ActAll(s, acts).msgs.vals
  {
    hide Act, ActAll, FreshIds, Enabled;
    if acts == [] {
      ActNothing(s, acts);
    } else {
      var n := |acts| - 1;
      AllButLast(s, acts);
      StillRegistered(s, acts[..n], id);
      ActAllLast(s, acts);
      ActCfg(ActAll(s, acts[..n]), acts[n]);
    }
  }

  /** What a TTL sweep does for an unplaced message that has expired: it becomes a dead letter, and REPLAY then brings
      it into its queue exactly when that has room for it. */
  lemma LapsedComesBack(s: Broker, now: real, id: string)
    requires InPlace(s) && Unplaced(s, id) && TtlExpired(s.cfg, s.msgs.vals[id], now)
    ensures var s1 := TtlSweep(s, now);
            && id in s1.dlq
            && (Queued(Replay(s1, id).0, id) <==> !NoRoom(s.queues, EntryOf(s.cfg, s.msgs.vals[id])))
  {
    hide InPlace, TtlSweep, TtlExpired, Queued, Requeue, CheckBody, NoRoom, Unbury, DeadAgree;
    UnplacedAtRest(s, id);
    RestStart(s, id);
    TtlSweepRests(s, s, id, now);
    KeptValid(s);
    SweepExact(s, now);
    var s1 := TtlSweep(s, now);
    UnburyShape(s1, id);
    var s2 := Unbury(s1, id);
    SameQueuesSameQueued(s, s2, id);
    QueuedAfterRequeue(s2, id, id);
  }
}
