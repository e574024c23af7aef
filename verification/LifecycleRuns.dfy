/** Every command and the ACK-timeout sweep keep the invariant. */
module LifecycleRuns {

  import opened Common
  import opened Dicts
  import opened Lifecycle
  import opened LifecycleInvariant
  import opened LifecycleActions

  // ---------- Loops over several messages ----------

  /** PENDING messages outside every queue. */
  ghost predicate Loose(s: Broker, ids: seq<string>) {
    forall id :: id in ids ==> id in s.msgs.vals && s.msgs.vals[id].status == Pending && !Queued(s, id)
  }

  ghost predicate Thawed(s0: Broker, ids: seq<string>) {
    forall id :: id in ids ==> !Frozen(s0, id)
  }

  /** A message that is now out for delivery or dead was not frozen when the command began. */
  lemma NotFrozenBefore(s0: Broker, s: Broker, id: string)
    requires Follows(s0, s) && id in s.msgs.vals
    requires s.msgs.vals[id].status == Delivered || s.msgs.vals[id].status == Dead
    ensures !Frozen(s0, id)
  {
    hide Home, Count;
    assert Frozen(s0, id) ==> SameMessage(s0, s, id);
  }

  lemma NewNotFrozen(s0: Broker, s: Broker, id: string)
    requires Follows(s0, s) && id !in s.msgs.vals
    ensures !Frozen(s0, id)
  {
  }

  lemma QueuedNotFrozen(s: Broker, id: string)
    requires Places(s) && Queued(s, id)
    ensures !Frozen(s, id) && id in s.msgs.vals && s.msgs.vals[id].status == Pending
    ensures CheckBody(s.cfg, s.msgs.vals[id].body).Ok?
  {
    var q :| q in s.queues && id in s.queues[q].items;
    assert QueueOk(s.cfg, s.msgs.vals, q, s.queues[q]);
  }

  /** A message on the move has a body its queue accepted before. */
  lemma MovedBodyOk(s: Broker, id: string)
    requires Inv(s) && id in s.msgs.vals && !Frozen(s, id)
    ensures CheckBody(s.cfg, s.msgs.vals[id].body).Ok?
  {
    hide Accounts, Homes, Fifo, CheckBody;
    if Queued(s, id) {
      QueuedNotFrozen(s, id);
    }
  }

  lemma RequeueGood(s0: Broker, s: Broker, id: string)
    requires Good(s0, s) && Loose(s, [id]) && Thawed(s0, [id])
    ensures Good(s0, Requeue(s, id).0)
    ensures Requeue(s, id).0.msgs == s.msgs
    ensures forall j :: j != id ==> (Queued(Requeue(s, id).0, j) <==> Queued(s, j))
  {
    hide Good, Queued, Frozen, CheckBody;
    assert id in [id];
    var m := s.msgs.vals[id];
    var r := Enqueue(s, m.target, id, m.body);
    if m.target in s.queues && r.Ok? {
      EnqueueGood(s0, s, id);
      var q := s.queues[m.target];
      forall j | j != id
        ensures Queued(r.value, j) <==> Queued(s, j)
      {
        QueuedAfterEnqueue(s, m.target, id, j);
        NoteKeepsQueued(s.(queues := s.queues[m.target := q.(items := q.items + [id])]), Enqueued(m.target, id), j);
      }
    }
  }

  lemma NoteKeepsQueued(s: Broker, e: Event, j: string)
    ensures Queued(Note(s, e), j) <==> Queued(s, j)
  {
    if Queued(s, j) {
      var q :| q in s.queues && j in s.queues[q].items;
      assert q in Note(s, e).queues && j in Note(s, e).queues[q].items;
    }
  }

  lemma {:induction false} RequeuePendingGood(s0: Broker, s: Broker, ids: seq<string>)
    requires Good(s0, s) && Loose(s, ids) && Thawed(s0, ids) && NoDup(ids)
    ensures Good(s0, RequeuePending(s, ids))
    decreases ids
  {
    hide Good, Queued, Frozen, Requeue;
    if ids != [] {
      var id := ids[0];
      assert id in ids && id !in ids[1..];
      RequeueGood(s0, s, id);
      RequeuePendingGood(s0, Requeue(s, id).0, ids[1..]) by {
        assert forall j :: j in ids[1..] ==> j in ids;
      }
    }
  }

  lemma {:induction false} RequeueEachGood(s0: Broker, s: Broker, ids: seq<string>)
    requires Good(s0, s) && Loose(s, ids) && Thawed(s0, ids) && NoDup(ids)
    ensures Good(s0, RequeueEach(s, ids).0)
    decreases ids
  {
    hide Good, Queued, Frozen, Requeue;
    if ids != [] {
      var id := ids[0];
      assert id in ids && id !in ids[1..];
      RequeueGood(s0, s, id);
      RequeueEachGood(s0, Requeue(s, id).0, ids[1..]) by {
        assert forall j :: j in ids[1..] ==> j in ids;
      }
    }
  }

  // ---------- The timeout sweep ----------

  lemma {:induction false} CheckTimeoutsGood(s: Broker, n: nat, now: real)
    requires Inv(s) && n <= |s.msgs.keys|
    ensures var (s1, expired) := CheckTimeouts(s, n, now);
            && Good(s, s1)
            && Loose(s1, expired) && Thawed(s, expired) && NoDup(expired)
            && (forall id :: id in expired ==> id in s.msgs.keys[..n])
  {
    hide Good, Queued, Frozen, Fail, Inv, Home;
    if n == 0 {
      GoodStart(s);
    } else {
      CheckTimeoutsGood(s, n - 1, now);
      var (s1, expired) := CheckTimeouts(s, n - 1, now);
      var id := s.msgs.keys[n - 1];
      KeysDistinct(s, n);
      assert s.msgs.keys[..n] == s.msgs.keys[..n - 1] + [id];
      if id in s1.msgs.vals && TimedOut(s1.cfg, s1.msgs.vals[id], now) {
        TimedOutStep(s, s1, id, expired);
      }
    }
  }

  lemma KeysDistinct(s: Broker, n: nat)
    requires Inv(s) && 0 < n <= |s.msgs.keys|
    ensures s.msgs.keys[n - 1] !in s.msgs.keys[..n - 1]
  {
    hide Accounts, Homes, Fifo;
  }

  lemma TimedOutStep(s: Broker, s1: Broker, id: string, expired: seq<string>)
    requires Good(s, s1) && id in s1.msgs.vals && s1.msgs.vals[id].status == Delivered
    requires Loose(s1, expired) && Thawed(s, expired) && NoDup(expired) && id !in expired
    ensures var s2 := Fail(s1, id);
            && Good(s, s2)
            && Loose(s2, expired) && Thawed(s, expired)
            && (s2.msgs.vals[id].status == Pending ==>
                  Loose(s2, expired + [id]) && Thawed(s, expired + [id]) && NoDup(expired + [id]))
  {
    hide Inv, Frozen, Places;
    NotFrozenBefore(s, s1, id) by {
      hide Inv;
    }
    FailGood(s, s1, id);
    var s2 := Fail(s1, id);
    forall j | j in expired
      ensures j in s2.msgs.vals && s2.msgs.vals[j].status == Pending && !Queued(s2, j)
    {
      assert j != id;
      assert Queued(s2, j) ==> Queued(s1, j);
    }
    NoDupSnoc(expired, id);
  }

  lemma SweepGood(s: Broker, now: real)
    requires Inv(s)
    ensures Good(s, Sweep(s, now))
  {
    hide Good, Loose, Thawed, CheckTimeouts, RequeuePending;
    CheckTimeoutsGood(s, |s.msgs.keys|, now);
    var (s1, expired) := CheckTimeouts(s, |s.msgs.keys|, now);
    RequeuePendingGood(s, s1, expired);
  }

  // ---------- Hand-back ----------

  lemma {:induction false} HandBackEachGood(s0: Broker, s: Broker, ids: seq<string>, consumer: string)
    requires Good(s0, s)
    ensures Good(s0, HandBackEach(s, ids, consumer))
    decreases ids
  {
    hide Inv, Follows, Requeue, Queued, Frozen;
    if ids != [] {
      var id := ids[0];
      if HeldBy(s, id, consumer) {
        NotFrozenBefore(s0, s, id);
        HandBackOneGood(s0, s, id);
        RequeueGood(s0, HandBackOne(s, id), id);
        HandBackEachGood(s0, Requeue(HandBackOne(s, id), id).0, ids[1..], consumer);
      } else {
        HandBackEachGood(s0, s, ids[1..], consumer);
      }
    }
  }

  // ---------- Acknowledgement ----------

  lemma {:induction false} AckEachGood(s: Broker, ids: seq<string>, n: nat, consumer: string)
    requires Inv(s) && n <= |ids|
    ensures Good(s, AckEach(s, ids, n, consumer).0)
  {
    hide Inv, Follows, Confirm, Frozen;
    if n == 0 {
      GoodStart(s);
    } else {
      AckEachGood(s, ids, n - 1, consumer);
      var s1 := AckEach(s, ids, n - 1, consumer).0;
      var id := ids[n - 1];
      if id in s1.msgs.vals && AckCheck(s1.msgs.vals[id], consumer) == AckOk {
        if s1.msgs.vals[id].status == Delivered {
          NotFrozenBefore(s, s1, id);
        }
        ConfirmGood(s, s1, id);
      }
    }
  }

  lemma AckGood(s: Broker, id: string, consumer: string)
    requires Inv(s)
    ensures Good(s, Ack(s, id, consumer).0)
  {
    hide Inv, Follows, Confirm, Frozen;
    GoodStart(s);
    if id in s.msgs.vals && AckCheck(s.msgs.vals[id], consumer) == AckOk {
      if s.msgs.vals[id].status == Delivered {
        NotFrozenBefore(s, s, id);
      }
      ConfirmGood(s, s, id);
    }
  }

  lemma NackGood(s: Broker, id: string, consumer: string)
    requires Inv(s)
    ensures Good(s, Nack(s, id, consumer).0)
  {
    hide Inv, Follows, Fail, Requeue, Frozen, Queued;
    GoodStart(s);
    if id in s.msgs.vals && s.msgs.vals[id].status == Delivered && s.msgs.vals[id].deliveredTo == consumer {
      NotFrozenBefore(s, s, id);
      FailGood(s, s, id);
      if Fail(s, id).msgs.vals[id].status == Pending {
        RequeueGood(s, Fail(s, id), id);
      }
    }
  }

  // ---------- Dead letters ----------

  /** The entries chosen for replay: all the dead letters from `target`, once each, in store order. */
  lemma {:induction false} DeadFromExact(s: Broker, dlq: seq<string>, target: string)
    requires NoDup(dlq) && forall id :: id in dlq ==> id in s.msgs.vals
    ensures var ids := DeadFrom(s, dlq, target);
            NoDup(ids) && forall id :: id in ids <==> id in dlq && s.msgs.vals[id].originalTarget == target
  {
    if dlq != [] {
      assert dlq == [dlq[0]] + dlq[1..];
      assert dlq[0] !in dlq[1..];
      DeadFromExact(s, dlq[1..], target);
      NoDupCons(dlq[0], DeadFrom(s, dlq[1..], target)) by {
        assert dlq[0] !in DeadFrom(s, dlq[1..], target);
      }
    }
  }

  lemma {:induction false} UnburyEachGood(s: Broker, ids: seq<string>, n: nat)
    requires Inv(s) && n <= |ids| && NoDup(ids)
    requires forall id :: id in ids ==> id in s.msgs.vals && s.msgs.vals[id].status == Dead
    ensures var s1 := UnburyEach(s, ids, n);
            && Good(s, s1)
            && Loose(s1, ids[..n]) && Thawed(s, ids)
            && s1.queues == s.queues
            && (forall id :: id in s.msgs.vals && id !in ids[..n] ==>
                  id in s1.msgs.vals && s1.msgs.vals[id] == s.msgs.vals[id])
  {
    hide Inv, Frozen, Good, Queued, Unbury, SameIds;
    GoodStart(s);
    forall id | id in ids
      ensures !Frozen(s, id)
    {
      DeadNotFrozen(s, id);
    }
    if n > 0 {
      UnburyEachGood(s, ids, n - 1);
      var s1 := UnburyEach(s, ids, n - 1);
      var id := ids[n - 1];
      assert ids[..n] == ids[..n - 1] + [id];
      assert id in ids && id !in ids[..n - 1];
      UnburyGood(s, s1, id);
      UnburyOthers(s1, id);
    }
  }

  lemma DeadNotFrozen(s: Broker, id: string)
    requires id in s.msgs.vals && s.msgs.vals[id].status == Dead
    ensures !Frozen(s, id)
  {
  }

  lemma UnburyOthers(s: Broker, id: string)
    requires id in s.msgs.vals
    ensures var s' := Unbury(s, id);
            && s'.queues == s.queues && id in s'.msgs.vals && s'.msgs.vals[id].status == Pending
            && (forall j :: j in s.msgs.vals && j != id ==> j in s'.msgs.vals && s'.msgs.vals[j] == s.msgs.vals[j])
            && (forall j :: Queued(s', j) ==> Queued(s, j))
  {
    var s' := Unbury(s, id);
    forall j | Queued(s', j)
      ensures Queued(s, j)
    {
      var q :| q in s'.queues && j in s'.queues[q].items;
    }
  }

  lemma DeadInDlq(s: Broker, id: string)
    requires Inv(s)
    ensures NoDup(s.dlq)
    ensures id in s.dlq <==> id in s.msgs.vals && s.msgs.vals[id].status == Dead
  {
    hide Accounts, Homes, Fifo;
  }

  lemma ChosenAreDead(s: Broker, target: string)
    requires Inv(s)
    ensures var ids := DeadFrom(s, s.dlq, target);
            && NoDup(ids) && NoDup(s.dlq)
            && (forall id :: id in ids ==>
                  && id in s.dlq && id in s.msgs.vals && s.msgs.vals[id].status == Dead
                  && s.msgs.vals[id].originalTarget == target)
  {
    hide Inv, DeadFrom;
    DeadInDlq(s, "");
    forall id | id in s.dlq
      ensures id in s.msgs.vals && s.msgs.vals[id].status == Dead
    {
      DeadInDlq(s, id);
    }
    DeadFromExact(s, s.dlq, target);
  }

  lemma ReplayGood(s: Broker, id: string)
    requires Inv(s)
    ensures Good(s, Replay(s, id).0)
  {
    hide Inv, Follows, Unbury, Requeue, Frozen, Queued;
    GoodStart(s);
    DeadInDlq(s, id);
    if id in s.dlq && id in s.msgs.vals {
      NotFrozenBefore(s, s, id);
      UnburyGood(s, s, id);
      UnburyOthers(s, id);
      RequeueGood(s, Unbury(s, id), id);
    }
  }

  lemma ReplayAllGood(s: Broker, target: string)
    requires Inv(s)
    ensures Good(s, ReplayAll(s, target).0)
  {
    hide Inv, Follows, Frozen, Queued, UnburyEach, RequeueEach, DeadFrom;
    var ids := DeadFrom(s, s.dlq, target);
    DeadInDlq(s, "");
    forall id | id in s.dlq
      ensures id in s.msgs.vals && s.msgs.vals[id].status == Dead
    {
      DeadInDlq(s, id);
    }
    DeadFromExact(s, s.dlq, target);
    UnburyEachGood(s, ids, |ids|);
    assert ids[..|ids|] == ids;
    RequeueEachGood(s, UnburyEach(s, ids, |ids|), ids);
  }

  // ---------- Producing and consuming ----------

  lemma CounterGood(s0: Broker, s: Broker, counter: nat)
    requires Good(s0, s) && counter >= s.counter
    ensures Good(s0, s.(counter := counter))
  {
    hide Accounts, Homes, Fifo, Home, Count;
    var s' := s.(counter := counter);
    forall j | Frozen(s0, j)
      ensures SameMessage(s0, s', j)
    {
      assert SameMessage(s0, s, j);
      assert Queued(s', j) ==> Queued(s, j);
    }
  }

  lemma SendGood(s: Broker, queue: string, body: string, ms: nat, seconds: int)
    requires Inv(s) && NextId(s, ms) !in s.msgs.vals
    ensures Good(s, Send(s, queue, body, ms, seconds).0)
  {
    hide Inv, Follows, Frozen, Queued, CheckBody, NextId;
    var id := NextId(s, ms);
    var m := NewMsg(id, queue, body, seconds, 0, 0);
    var counted := s.(counter := s.counter + 1);
    GoodStart(s);
    CounterGood(s, s, s.counter + 1);
    RegisterGood(s, counted, m);
    NewNotFrozen(s, s, id);
    var s1 := Register(counted, m);
    if Enqueue(s1, queue, id, body).Ok? {
      EnqueueGood(s, s1, id);
    }
    RegistryValid(s);
    PutPop(s.msgs, id, m);
  }

  lemma RegistryValid(s: Broker)
    requires Inv(s)
    ensures s.msgs.Valid()
  {
  }

  lemma PublishGood(s: Broker, topic: string, topicExists: bool, body: string, ms: nat, seconds: int)
    requires Inv(s) && (topicExists ==> NextId(s, ms) !in s.msgs.vals)
    ensures Good(s, Publish(s, topic, topicExists, body, ms, seconds).0)
  {
    hide Inv, Follows, Frozen, Queued, NextId;
    GoodStart(s);
    if topicExists {
      var id := NextId(s, ms);
      var m := NewMsg(id, topic, body, seconds, 0, 0);
      CounterGood(s, s, s.counter + 1);
      RegisterGood(s, s.(counter := s.counter + 1), m);
    }
  }

  lemma ConsumeGood(s: Broker, queue: string, consumer: string, now: real)
    requires Inv(s)
    ensures Good(s, Consume(s, queue, consumer, now).0)
  {
    hide Accounts, Homes, Fifo, Follows, Frozen;
    GoodStart(s);
    if queue in s.queues && s.queues[queue].items != [] {
      var id := s.queues[queue].items[0];
      assert Queued(s, id);
      QueuedNotFrozen(s, id);
      DropHeadGood(s, s, queue);
      DeliverGood(s, DropHead(s, queue), id, consumer, now);
    }
  }

  lemma OffsetsGood(s0: Broker, s: Broker, offsets: map<string, nat>)
    requires Good(s0, s)
    ensures Good(s0, s.(offsets := offsets))
  {
    hide Accounts, Homes, Fifo, Home, Count;
    var s' := s.(offsets := offsets);
    forall j | Frozen(s0, j)
      ensures SameMessage(s0, s', j)
    {
      assert SameMessage(s0, s, j);
      assert Queued(s', j) ==> Queued(s, j);
    }
  }

  lemma FetchGood(s: Broker, topic: string, consumer: string)
    requires Inv(s)
    ensures Good(s, FetchTopic(s, topic, consumer).0)
  {
    hide Inv, Follows, OffsetKey;
    GoodStart(s);
    var offset := OffsetOf(s, topic, consumer);
    var ids := TopicIds(s, topic);
    if offset < |ids| {
      var offsets := s.offsets[OffsetKey(topic, consumer) := offset + 1];
      OffsetsGood(s, s, offsets);
    }
  }

  // ---------- Every command ----------

  /** A new message gets an id that is not in use. */
  predicate Enabled(s: Broker, c: Command) {
    match c
    case SendCmd(_, _, ms, _) => NextId(s, ms) !in s.msgs.vals
    case PublishCmd(_, topicExists, _, ms, _) => topicExists ==> NextId(s, ms) !in s.msgs.vals
    case _ => true
  }

  lemma StepGood(s: Broker, c: Command)
    requires Inv(s) && Enabled(s, c)
    ensures Good(s, Step(s, c))
  {
    hide Inv, Follows, Send, Publish, Consume, Ack, AckBatch, Nack, Sweep, HandBackEach, Replay, ReplayAll, FetchTopic,
      CreateQueue, DeleteQueue, AckEach;
    GoodStart(s);
    match c {
      case CreateQueueCmd(name, size) => CreateQueueGood(s, s, name, size);
      case DeleteQueueCmd(name) => DeleteQueueGood(s, s, name);
      case SendCmd(queue, body, ms, seconds) => SendGood(s, queue, body, ms, seconds);
      case PublishCmd(topic, topicExists, body, ms, seconds) => PublishGood(s, topic, topicExists, body, ms, seconds);
      case RestoreCmd(id, target, body, timestamp, ttl, ackTimeout) =>
        if id !in s.msgs.vals {
          RegisterGood(s, s, NewMsg(id, target, body, timestamp, ttl, ackTimeout));
        }
      case ConsumeCmd(queue, consumer, now) => ConsumeGood(s, queue, consumer, now);
      case AckCmd(id, consumer) => AckGood(s, id, consumer);
      case AckBatchCmd(ids, consumer) => AckBatchIsAckEach(s, ids, consumer); AckEachGood(s, ids, |ids|, consumer);
      case NackCmd(id, consumer) => NackGood(s, id, consumer);
      case SweepCmd(now) => SweepGood(s, now);
      case HandBackCmd(consumer) => HandBackEachGood(s, s, s.msgs.keys, consumer);
      case ReplayCmd(id) => ReplayGood(s, id);
      case ReplayAllCmd(target) => ReplayAllGood(s, target);
      case FetchCmd(topic, consumer) => FetchGood(s, topic, consumer);
      case SetOffsetCmd(topic, consumer, offset) =>
        if offset >= 0 {
          OffsetsGood(s, s, s.offsets[OffsetKey(topic, consumer) := offset]);
        }
    }
  }

  lemma AckBatchIsAckEach(s: Broker, ids: seq<string>, consumer: string)
    ensures AckBatch(s, ids, consumer).0 == AckEach(s, ids, |ids|, consumer).0
  {
  }

  ghost predicate EnabledRun(s: Broker, cs: seq<Command>) {
    forall n :: 0 <= n < |cs| ==> Enabled(Run(s, cs[..n]), cs[n])
  }

  lemma StartInv(cfg: Config)
    requires cfg.maxRetries >= 0
    ensures Inv(Start(cfg))
  {
  }

  lemma {:induction false} RunGood(s: Broker, cs: seq<Command>)
    requires Inv(s) && EnabledRun(s, cs)
    ensures Good(s, Run(s, cs))
  {
    hide Inv, Follows, Step, Enabled;
    if cs == [] {
      GoodStart(s);
    } else {
      var n := |cs| - 1;
      forall k | 0 <= k < n
        ensures Enabled(Run(s, cs[..n][..k]), cs[..n][k])
      {
        assert cs[..n][..k] == cs[..k];
      }
      RunGood(s, cs[..n]);
      StepGood(Run(s, cs[..n]), cs[n]);
      GoodThen(s, Run(s, cs[..n]), Run(s, cs));
    }
  }
}
