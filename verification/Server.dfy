/** `src/message_router.py` and the command handlers and sweeps of `src/server.py`. The server carries the abstract
    state as the ghost field `s`; each handler is proved to take it where the function of the same name in
    `Lifecycle` says, and to give the same reply. */
module Server {

  import opened Common
  import opened Dicts
  import opened Order
  import opened MessageIds
  import opened Lifecycle
  import opened LifecycleRecords
  import opened DeadLetters
  import opened Managers

  class MessageRouter {
    const queueMgr: QueueManager
    const ids: IdGenerator
    var messages: Registry
    var topicOffsets: map<string, nat>

    /** Registry, queues, offsets and counter are those of `s`. */
    ghost predicate Routes(s: Broker, dlq: Registry)
      reads this, queueMgr, ids, messages.vals.Values
    {
      && Tracks(s, messages, dlq)
      && s.cfg == queueMgr.cfg && s.queues == queueMgr.queues
      && s.offsets == topicOffsets && s.counter == ids.counter
    }

    constructor (queueMgr: QueueManager)
      ensures this.queueMgr == queueMgr && fresh(ids) && ids.counter == 0
      ensures messages == Empty() && topicOffsets == map[]
    {
      this.queueMgr := queueMgr;
      ids := new IdGenerator();
      messages := Empty();
      topicOffsets := map[];
    }

    /** `_create_message` and the registration that follows it. */
    method CreateMessage(target: string, body: string, ms: nat, seconds: int, ghost s: Broker, ghost dlq: Registry)
      returns (msg: Message)
      requires Routes(s, dlq) && NextId(s, ms) !in s.msgs.vals
      modifies this`messages, ids
      ensures msg.id == NextId(s, ms) && msg.body == body && msg.target == target && fresh(msg)
      ensures messages == old(messages).Put(msg.id, msg)
      ensures Routes(Register(s.(counter := s.counter + 1), NewMsg(msg.id, target, body, seconds, 0, 0)), dlq)
    {
      hide Tracks, MakeId, Register;
      ghost var counted := s.(counter := s.counter + 1);
      RegisterFields(counted, NewMsg(NextId(s, ms), target, body, seconds, 0, 0));
      SameMsgsTracks(s, counted, messages, dlq);
      assert ids as object !in messages.vals.Values && this as object !in messages.vals.Values;
      var id := ids.GenerateId(ms);
      msg := new Message(id, target, body, seconds, 0, 0);
      TrackNew(counted, messages, dlq, msg);
      messages := messages.Put(id, msg);
    }

    method RouteToTopic(topic: string, topicExists: bool, body: string, ms: nat, seconds: int,
                        ghost s: Broker, ghost dlq: Registry)
      returns (r: Reply)
      requires Routes(s, dlq) && (topicExists ==> NextId(s, ms) !in s.msgs.vals)
      modifies this`messages, ids
      ensures Routes(Publish(s, topic, topicExists, body, ms, seconds).0, dlq)
      ensures r == Publish(s, topic, topicExists, body, ms, seconds).1
    {
      hide Tracks, NextId, MakeId;
      if !topicExists {
        return Error(TopicNotFound);
      }
      var msg := CreateMessage(topic, body, ms, seconds, s, dlq);
      r := NewId(msg.id);
    }

    method RouteToQueue(queue: string, body: string, ms: nat, seconds: int, ghost s: Broker, ghost dlq: Registry)
      returns (r: Reply)
      requires Routes(s, dlq) && NextId(s, ms) !in s.msgs.vals
      modifies this`messages, ids, queueMgr
      ensures Routes(Send(s, queue, body, ms, seconds).0, dlq)
      ensures r == Send(s, queue, body, ms, seconds).1
    {
      hide Tracks, NextId, Send, MakeId, Register;
      ghost var before := messages;
      RegistryIsValid(s, messages, dlq);
      SameMsgsTracks(s, s.(counter := s.counter + 1), messages, dlq);
      assert ids as object !in before.vals.Values && this as object !in before.vals.Values;
      var msg := CreateMessage(queue, body, ms, seconds, s, dlq);
      PutPop(before, msg.id, msg);
      r := EnqueueOrWithdraw(msg, ms, seconds, s, dlq, before);
    }

    /** The rest of `route_to_queue`: a full queue takes the message out of the registry again. */
    method EnqueueOrWithdraw(msg: Message, ms: nat, seconds: int, ghost s: Broker, ghost dlq: Registry,
                             ghost before: Registry)
      returns (r: Reply)
      requires msg.id == NextId(s, ms) && msg.id !in s.msgs.vals && s.msgs.Valid()
      requires Routes(Register(s.(counter := s.counter + 1), NewMsg(msg.id, msg.target, msg.body, seconds, 0, 0)), dlq)
      requires messages.Pop(msg.id) == before && Tracks(s.(counter := s.counter + 1), before, dlq)
      modifies this`messages, queueMgr
      ensures Routes(Send(s, old(msg.target), msg.body, ms, seconds).0, dlq)
      ensures r == Send(s, old(msg.target), msg.body, ms, seconds).1
    {
      hide CheckBody, Tracks, NextId, Send, MakeId, Register, NewMsg, Remove;
      ghost var counted := s.(counter := s.counter + 1);
      RegisterFields(counted, NewMsg(msg.id, msg.target, msg.body, seconds, 0, 0));
      ghost var s1 := Register(counted, NewMsg(msg.id, msg.target, msg.body, seconds, 0, 0));
      ghost var s2 := Send(s, msg.target, msg.body, ms, seconds).0;
      SendOutcome(s, msg.target, msg.body, ms, seconds);
      CheckBodyNeverFull(queueMgr.cfg, msg.body);
      assert queueMgr as object !in messages.vals.Values && queueMgr as object !in before.vals.Values;
      assert this as object !in messages.vals.Values && this as object !in before.vals.Values;
      var e := queueMgr.Enqueue(msg.target, msg.id, msg.body);
      if e.Ok? {
        SameMsgsTracks(s1, s2, messages, dlq);
        r := NewId(msg.id);
      } else if e.error == QueueFull {
        SameMsgsTracks(counted, s2, before, dlq);
        messages := messages.Pop(msg.id);
        r := Error(QueueFull);
      } else {
        SameMsgsTracks(s1, s2, messages, dlq);
        r := Error(e.error);
      }
    }

    method Deliver(msg: Message, consumer: string, now: real, ghost s: Broker, ghost dlq: Registry)
      requires Tracks(s, messages, dlq) && msg.id in messages.vals && messages.vals[msg.id] == msg
      modifies msg
      ensures Tracks(Lifecycle.Deliver(s, msg.id, consumer, now), messages, dlq)
    {
      hide Tracks, TracksOthers, DlqTracks;
      TracksOne(s, messages, dlq, msg.id);
      msg.status := Delivered;
      msg.deliveredTo := consumer;
      msg.deliverTime := now;
      Retrack(s, Lifecycle.Deliver(s, msg.id, consumer, now), messages, dlq, msg.id);
    }

    /** Non-blocking consumption; ids no longer registered are skipped. */
    method ConsumeFromQueue(queue: string, consumer: string, now: real, ghost s: Broker, ghost dlq: Registry)
      returns (r: Reply)
      requires Routes(s, dlq)
      modifies queueMgr, messages.vals.Values
      ensures Routes(Consume(s, queue, consumer, now).0, dlq)
      ensures r == Consume(s, queue, consumer, now).1
    {
      hide Tracks, SameIds;
      ghost var cur := s;
      while true
        invariant Routes(cur, dlq)
        invariant Consume(cur, queue, consumer, now) == Consume(s, queue, consumer, now)
        decreases if queue in queueMgr.queues then |queueMgr.queues[queue].items| else 0
      {
        TracksLookup(cur, messages, dlq);
        var result := queueMgr.Dequeue(queue);
        if result.Err? {
          return Error(result.error);
        }
        if result.value.None? {
          return Nothing;
        }
        var id := result.value.value;
        SameMsgsTracks(cur, DropHead(cur, queue), messages, dlq);
        cur := DropHead(cur, queue);
        if messages.Has(id) {
          var msg := messages.vals[id];
          Deliver(msg, consumer, now, cur, dlq);
          return Got(id, msg.body);
        }
      }
    }

    /** The ids of the topic's messages, sorted. */
    method CollectTopic(topic: string, ghost s: Broker, ghost dlq: Registry) returns (sorted: seq<string>)
      requires Routes(s, dlq)
      ensures Routes(s, dlq)
      ensures sorted == TopicIds(s, topic)
    {
      var found: set<string> := {};
      var i := 0;
      while i < |messages.keys|
        invariant 0 <= i <= |messages.keys|
        invariant forall id :: id in found <==> id in messages.keys[..i] && s.msgs.vals[id].target == topic
      {
        var id := messages.keys[i];
        assert id in messages.keys;
        if messages.vals[id].target == topic {
          found := found + {id};
        }
        i := i + 1;
      }
      assert messages.keys[..i] == messages.keys;
      sorted := SortSet(found);
      assert found == set id | id in s.msgs.vals && s.msgs.vals[id].target == topic;
      SortedUnique(sorted, TopicIds(s, topic));
    }

    method ConsumeFromTopic(topic: string, consumer: string, ghost s: Broker, ghost dlq: Registry) returns (r: Reply)
      requires Routes(s, dlq)
      modifies this`topicOffsets
      ensures Routes(FetchTopic(s, topic, consumer).0, dlq)
      ensures r == FetchTopic(s, topic, consumer).1
    {
      hide Tracks, SameRegistry;
      TracksLookup(s, messages, dlq);
      var key := OffsetKey(topic, consumer);
      var offset := if key in topicOffsets then topicOffsets[key] else 0;
      var topicIds := CollectTopic(topic, s, dlq);
      if offset < |topicIds| {
        topicOffsets := topicOffsets[key := offset + 1];
        SameMsgsTracks(s, FetchTopic(s, topic, consumer).0, messages, dlq);
        assert topicIds[offset] in topicIds;
        return Got(topicIds[offset], messages.vals[topicIds[offset]].body);
      }
      r := Nothing;
    }

    method SetOffset(topic: string, consumer: string, offset: int, ghost s: Broker, ghost dlq: Registry)
      returns (r: Reply)
      requires Routes(s, dlq)
      modifies this`topicOffsets
      ensures Routes(Lifecycle.SetOffset(s, topic, consumer, offset).0, dlq)
      ensures r == Lifecycle.SetOffset(s, topic, consumer, offset).1
    {
      hide Tracks, OffsetKey;
      if offset < 0 {
        return Error(InvalidOffset);
      }
      SameMsgsTracks(s, Lifecycle.SetOffset(s, topic, consumer, offset).0, messages, dlq);
      assert this as object !in messages.vals.Values;
      topicOffsets := topicOffsets[OffsetKey(topic, consumer) := offset];
      r := Done;
    }

    method RestoreMessage(msg: Message, ghost s: Broker, ghost dlq: Registry)
      requires Routes(s, dlq)
      modifies this`messages, msg
      requires msg.id in s.msgs.vals || msg !in messages.vals.Values
      ensures Routes(Restore(s, old(msg.Abs())), dlq)
    {
      hide Tracks, Register;
      TracksLookup(s, messages, dlq);
      if !messages.Has(msg.id) {
        assert msg !in messages.vals.Values && this as object !in messages.vals.Values;
        if msg.status != Acked {
          msg.status := Pending;
        }
        RegisterFields(s, msg.Abs());
        TrackNew(s, messages, dlq, msg);
        messages := messages.Put(msg.id, msg);
      }
    }
  }

  class MQServer {
    const cfg: Config
    const queueMgr: QueueManager
    const router: MessageRouter
    const ackMgr: AckManager
    ghost var s: Broker

    /** The managers' shared state is the abstract state `cur`. */
    ghost predicate Holds(cur: Broker)
      reads queueMgr, router, ackMgr, router.ids, router.messages.vals.Values
    {
      && router.queueMgr == queueMgr && queueMgr.cfg == cfg && ackMgr.cfg == cfg
      && router.Routes(cur, ackMgr.dlq)
    }

    ghost predicate Valid()
      reads this, queueMgr, router, ackMgr, router.ids, router.messages.vals.Values
    {
      Holds(s)
    }

    constructor (cfg: Config)
      ensures Valid() && s == Start(cfg)
    {
      this.cfg := cfg;
      var queues := new QueueManager(cfg);
      queueMgr := queues;
      router := new MessageRouter(queues);
      ackMgr := new AckManager(cfg);
      s := Start(cfg);
    }

    method CreateQueue(name: string, size: Option<int>) returns (r: Reply)
      requires Valid()
      modifies this, queueMgr
      ensures Valid() && (s, r) == Lifecycle.CreateQueue(old(s), name, size)
    {
      hide Tracks, ValidName;
      SameMsgsTracks(s, Lifecycle.CreateQueue(s, name, size).0, router.messages, ackMgr.dlq);
      Apart();
      r := queueMgr.CreateQueue(name, size);
      s := Lifecycle.CreateQueue(s, name, size).0;
    }

    method DeleteQueue(name: string) returns (r: Reply)
      requires Valid()
      modifies this, queueMgr
      ensures Valid() && (s, r) == Lifecycle.DeleteQueue(old(s), name)
    {
      hide Tracks;
      SameMsgsTracks(s, Lifecycle.DeleteQueue(s, name).0, router.messages, ackMgr.dlq);
      Apart();
      r := queueMgr.DeleteQueue(name);
      s := Lifecycle.DeleteQueue(s, name).0;
    }

    /** The managers are not messages. */
    lemma Apart()
      ensures this as object !in router.messages.vals.Values
      ensures queueMgr as object !in router.messages.vals.Values
      ensures router as object !in router.messages.vals.Values
      ensures ackMgr as object !in router.messages.vals.Values
      ensures router.ids as object !in router.messages.vals.Values
    {
    }

    method Send(queue: string, body: string, ms: nat, seconds: int) returns (r: Reply)
      requires Valid() && NextId(s, ms) !in s.msgs.vals
      modifies this, queueMgr, router, router.ids
      ensures Valid() && (s, r) == Lifecycle.Send(old(s), queue, body, ms, seconds)
    {
      hide Tracks, Lifecycle.Send, NextId;
      Apart();
      r := router.RouteToQueue(queue, body, ms, seconds, s, ackMgr.dlq);
      Apart();
      s := Lifecycle.Send(s, queue, body, ms, seconds).0;
    }

    method Publish(topic: string, topicExists: bool, body: string, ms: nat, seconds: int) returns (r: Reply)
      requires Valid() && (topicExists ==> NextId(s, ms) !in s.msgs.vals)
      modifies this, router, router.ids
      ensures Valid() && (s, r) == Lifecycle.Publish(old(s), topic, topicExists, body, ms, seconds)
    {
      hide Tracks, Lifecycle.Publish, NextId;
      Apart();
      r := router.RouteToTopic(topic, topicExists, body, ms, seconds, s, ackMgr.dlq);
      Apart();
      s := Lifecycle.Publish(s, topic, topicExists, body, ms, seconds).0;
    }

    /** Start-up: one recovered record joins the registry. */
    method RestoreRecord(id: string, target: string, body: string, timestamp: int, ttl: int, ackTimeout: int)
      requires Valid()
      modifies this, router
      ensures Valid() && s == Restore(old(s), NewMsg(id, target, body, timestamp, ttl, ackTimeout))
    {
      hide Tracks, Restore;
      Apart();
      var msg := new Message(id, target, body, timestamp, ttl, ackTimeout);
      router.RestoreMessage(msg, s, ackMgr.dlq);
      Apart();
      s := Restore(s, NewMsg(id, target, body, timestamp, ttl, ackTimeout));
    }

    method Consume(queue: string, consumer: string, now: real) returns (r: Reply)
      requires Valid()
      modifies this, queueMgr, router.messages.vals.Values
      ensures Valid() && (s, r) == Lifecycle.Consume(old(s), queue, consumer, now)
    {
      hide Tracks, Lifecycle.Consume;
      Apart();
      r := router.ConsumeFromQueue(queue, consumer, now, s, ackMgr.dlq);
      s := Lifecycle.Consume(s, queue, consumer, now).0;
    }

    method SetOffset(topic: string, consumer: string, offset: int) returns (r: Reply)
      requires Valid()
      modifies this, router
      ensures Valid() && (s, r) == Lifecycle.SetOffset(old(s), topic, consumer, offset)
    {
      hide Tracks, Lifecycle.SetOffset;
      Apart();
      r := router.SetOffset(topic, consumer, offset, s, ackMgr.dlq);
      s := Lifecycle.SetOffset(s, topic, consumer, offset).0;
    }

    /** `ack_mgr.ack` on a registered message. */
    method Confirm(id: string, consumer: string, ghost cur: Broker) returns (r: AckResult)
      requires Holds(cur) && id in router.messages.vals && id in cur.msgs.vals
      modifies router.messages.vals.Values
      ensures r == AckCheck(cur.msgs.vals[id], consumer)
      ensures Holds(if r == AckOk then Lifecycle.Confirm(cur, id) else cur)
    {
      hide Tracks, TracksOthers, DlqTracks;
      TracksOne(cur, router.messages, ackMgr.dlq, id);
      Apart();
      r := ackMgr.Ack(router.messages.vals[id], consumer);
      if r == AckOk {
        ConfirmShape(cur, id);
        Retrack(cur, Lifecycle.Confirm(cur, id), router.messages, ackMgr.dlq, id);
      } else {
        assert cur.msgs.vals == cur.msgs.vals[id := router.messages.vals[id].Abs()];
        Retrack(cur, cur, router.messages, ackMgr.dlq, id);
      }
    }

    method Ack(id: string, consumer: string) returns (r: Reply)
      requires Valid()
      modifies this, router.messages.vals.Values
      ensures Valid() && (s, r) == Lifecycle.Ack(old(s), id, consumer)
    {
      hide Tracks, Lifecycle.Confirm, AckCheck;
      TracksLookup(s, router.messages, ackMgr.dlq);
      Apart();
      if !router.messages.Has(id) {
        return Error(MessageNotFound);
      }
      var check := Confirm(id, consumer, s);
      s := if check == AckOk then Lifecycle.Confirm(s, id) else s;
      r := if check == WrongConsumer then Error(NotYourMessage) else Done;
    }

    method AckBatch(ids: seq<string>, consumer: string) returns (r: Reply)
      requires Valid()
      modifies this, router.messages.vals.Values
      ensures Valid() && (s, r) == Lifecycle.AckBatch(old(s), ids, consumer)
    {
      hide Tracks, Lifecycle.Confirm, AckCheck, SameIds;
      var failed: seq<string> := [];
      ghost var s0 := s;
      var i := 0;
      while i < |ids|
        invariant 0 <= i <= |ids|
        invariant Valid() && AckEach(s0, ids, i, consumer) == (s, failed)
      {
        TracksLookup(s, router.messages, ackMgr.dlq);
        Apart();
        if router.messages.Has(ids[i]) {
          var check := Confirm(ids[i], consumer, s);
          if check == AckOk {
            s := Lifecycle.Confirm(s, ids[i]);
          } else {
            failed := failed + [ids[i]];
          }
        } else {
          failed := failed + [ids[i]];
        }
        i := i + 1;
      }
      r := if failed == [] then Done else PartialAck(failed);
    }

    /** `if queue_exists: enqueue`; false when the queue refuses and the exception leaves the handler. */
    method Requeue(id: string, ghost cur: Broker) returns (ok: bool)
      requires Holds(cur) && id in router.messages.vals && id in cur.msgs.vals
      modifies queueMgr
      ensures Holds(Lifecycle.Requeue(cur, id).0) && ok == Lifecycle.Requeue(cur, id).1
    {
      hide Tracks, CheckBody, SameIds;
      TracksLookup(cur, router.messages, ackMgr.dlq);
      Apart();
      RequeueKeepsMsgs(cur, id);
      SameMsgsTracks(cur, Lifecycle.Requeue(cur, id).0, router.messages, ackMgr.dlq);
      var msg := router.messages.vals[id];
      if msg.target !in queueMgr.queues {
        return true;
      }
      var e := queueMgr.Enqueue(msg.target, msg.id, msg.body);
      ok := e.Ok?;
    }

    method Nack(id: string, consumer: string) returns (r: Reply)
      requires Valid()
      modifies this, queueMgr, ackMgr, router.messages.vals.Values
      ensures Valid() && (s, r) == Lifecycle.Nack(old(s), id, consumer)
    {
      hide Tracks, Fail, Lifecycle.Requeue, SameIds;
      TracksLookup(s, router.messages, ackMgr.dlq);
      Apart();
      if !router.messages.Has(id) {
        return Error(MessageNotFound);
      }
      var msg := router.messages.vals[id];
      FailShape(s, id);
      var ok := ackMgr.Nack(msg, consumer, s, router.messages);
      if !ok {
        return Error(NotYourMessage);
      }
      s := Fail(s, id);
      r := PutBack(id);
    }

    /** The rest of `_cmd_nack`: a message that is PENDING again goes back to its queue. */
    method PutBack(id: string) returns (r: Reply)
      requires Valid() && id in s.msgs.vals
      modifies this, queueMgr
      ensures Valid()
      ensures if old(s).msgs.vals[id].status != Pending then s == old(s) && r == Done
              else
                var (s', ok) := Lifecycle.Requeue(old(s), id);
                s == s' && r == if ok then Done else Error(InternalError)
    {
      hide Tracks, Lifecycle.Requeue;
      TracksLookup(s, router.messages, ackMgr.dlq);
      Apart();
      if router.messages.vals[id].status != Pending {
        return Done;
      }
      var ok := Requeue(id, s);
      s := Lifecycle.Requeue(s, id).0;
      r := if ok then Done else Error(InternalError);
    }

    /** The ACK-timeout part of the checker loop. */
    method Sweep(now: real)
      requires Valid()
      modifies this, queueMgr, ackMgr, router.messages.vals.Values
      ensures Valid() && s == Lifecycle.Sweep(old(s), now)
    {
      hide Tracks, CheckTimeouts, RequeuePending, SameIds;
      Apart();
      TracksBasics(s, router.messages, ackMgr.dlq);
      CheckTimeoutsKeeps(s, |s.msgs.keys|, now);
      var expired := ackMgr.CheckTimeouts(router.messages, now, s);
      ghost var checked := CheckTimeouts(s, |s.msgs.keys|, now).0;
      assert Holds(checked);
      RequeueTimedOut(expired, checked);
      s := RequeuePending(checked, expired);
    }

    method RequeueTimedOut(expired: seq<string>, ghost cur0: Broker)
      requires Holds(cur0)
      modifies queueMgr
      ensures Holds(RequeuePending(cur0, expired))
    {
      hide Tracks, Lifecycle.Requeue, SameIds;
      ghost var cur := cur0;
      var i := 0;
      while i < |expired|
        invariant 0 <= i <= |expired|
        invariant Holds(cur) && RequeuePending(cur, expired[i..]) == RequeuePending(cur0, expired)
      {
        var id := expired[i];
        assert expired[i..][0] == id && expired[i..][1..] == expired[i + 1..];
        TracksLookup(cur, router.messages, ackMgr.dlq);
        Apart();
        i := i + 1;
        if router.messages.Has(id) && router.messages.vals[id].status == Pending {
          var ok := Requeue(id, cur);
          cur := Lifecycle.Requeue(cur, id).0;
          if !ok {
            return;
          }
        }
      }
      assert expired[i..] == [];
    }

    /** The TTL part of the checker loop. */
    method SweepTtl(now: real)
      requires Valid()
      modifies this, ackMgr, router.messages.vals.Values
      ensures Valid() && s == TtlSweep(old(s), now)
    {
      hide Tracks, TtlSweep, SameIds;
      Apart();
      TtlSweepKeeps(s, now);
      var _ := ackMgr.CheckTtl(router.messages, now, s);
      s := TtlSweep(s, now);
    }

    method Release(msg: Message, ghost cur: Broker)
      requires Holds(cur) && msg.id in router.messages.vals && router.messages.vals[msg.id] == msg
      requires msg.id in cur.msgs.vals
      modifies msg
      ensures Holds(HandBackOne(cur, msg.id))
    {
      hide Tracks, TracksOthers, DlqTracks;
      TracksOne(cur, router.messages, ackMgr.dlq, msg.id);
      Apart();
      msg.status := Pending;
      msg.deliveredTo := "";
      msg.deliverTime := 0.0;
      Retrack(cur, HandBackOne(cur, msg.id), router.messages, ackMgr.dlq, msg.id);
    }

    /** One turn of the hand-back loop; false when the queue refuses. */
    method HandBackMessage(id: string) returns (ok: bool)
      requires Valid() && id in s.msgs.vals
      modifies this`s, queueMgr, router.messages.vals.Values
      ensures Valid()
      ensures (s, ok) == Lifecycle.Requeue(HandBackOne(old(s), id), id)
    {
      hide Tracks, Lifecycle.Requeue, HandBackOne, SameIds;
      TracksBasics(s, router.messages, ackMgr.dlq);
      TracksLookup(s, router.messages, ackMgr.dlq);
      Apart();
      HandBackOneIn(s, id);
      ghost var freed := HandBackOne(s, id);
      Release(router.messages.vals[id], s);
      ok := Requeue(id, freed);
      s := Lifecycle.Requeue(freed, id).0;
    }

    /** `_redeliver_pending_messages`. */
    method HandBack(consumer: string)
      requires Valid()
      modifies this, queueMgr, router.messages.vals.Values
      ensures Valid() && s == Lifecycle.HandBack(old(s), consumer)
    {
      hide Tracks, Lifecycle.Requeue, HandBackOne, SameIds;
      ghost var s0 := s;
      var keys := router.messages.keys;
      TracksBasics(s, router.messages, ackMgr.dlq);
      var i := 0;
      while i < |keys|
        invariant 0 <= i <= |keys| && keys == router.messages.keys
        invariant Valid() && HandBackEach(s, keys[i..], consumer) == HandBackEach(s0, keys, consumer)
      {
        var id := keys[i];
        assert keys[i..][0] == id && keys[i..][1..] == keys[i + 1..];
        TracksBasics(s, router.messages, ackMgr.dlq);
        TracksLookup(s, router.messages, ackMgr.dlq);
        Apart();
        var msg := router.messages.vals[id];
        i := i + 1;
        if msg.deliveredTo == consumer && msg.status == Delivered {
          var ok := HandBackMessage(id);
          if !ok {
            return;
          }
        }
      }
      assert keys[i..] == [];
    }

    method Replay(id: string) returns (r: Reply)
      requires Valid()
      modifies this, queueMgr, ackMgr, router.messages.vals.Values
      ensures Valid() && (s, r) == Lifecycle.Replay(old(s), id)
    {
      hide Tracks, Unbury, Lifecycle.Requeue, SameIds;
      Apart();
      DlqLookup(s, router.messages, ackMgr.dlq, id);
      TracksLookup(s, router.messages, ackMgr.dlq);
      var msg := ackMgr.ReplayFromDlq(id, s, router.messages);
      if msg.None? {
        return Error(MessageNotFound);
      }
      UnburyShape(s, id);
      s := Unbury(s, id);
      var ok := Requeue(id, s);
      s := Lifecycle.Requeue(s, id).0;
      r := if ok then Done else Error(InternalError);
    }

    method ReplayAll(target: string) returns (r: Reply)
      requires Valid()
      modifies this, queueMgr, ackMgr, router.messages.vals.Values
      ensures Valid() && (s, r) == Lifecycle.ReplayAll(old(s), target)
    {
      hide Tracks, UnburyEach, RequeueEach, DeadFrom, SameIds;
      Apart();
      var ids := ackMgr.ReplayAllFromDlq(target, s, router.messages);
      UnburyEachKeeps(s, ids, |ids|);
      ghost var freed := UnburyEach(s, ids, |ids|);
      var ok := RequeueReplayed(ids, freed);
      s := RequeueEach(freed, ids).0;
      r := if ok then Replays(|ids|) else Error(InternalError);
    }

    method RequeueReplayed(ids: seq<string>, ghost cur0: Broker) returns (ok: bool)
      requires Holds(cur0)
      modifies queueMgr
      ensures Holds(RequeueEach(cur0, ids).0) && ok == RequeueEach(cur0, ids).1
    {
      hide Tracks, Lifecycle.Requeue, SameIds;
      ghost var cur := cur0;
      var i := 0;
      while i < |ids|
        invariant 0 <= i <= |ids|
        invariant Holds(cur) && RequeueEach(cur, ids[i..]) == RequeueEach(cur0, ids)
      {
        var id := ids[i];
        assert ids[i..][0] == id && ids[i..][1..] == ids[i + 1..];
        TracksLookup(cur, router.messages, ackMgr.dlq);
        Apart();
        i := i + 1;
        if router.messages.Has(id) {
          ok := Requeue(id, cur);
          cur := Lifecycle.Requeue(cur, id).0;
          if !ok {
            return;
          }
        }
      }
      assert ids[i..] == [];
      ok := true;
    }
  }

  // ---------- Facts ----------

  lemma ConfirmShape(s: Broker, id: string)
    requires id in s.msgs.vals && (s.msgs.vals[id].status == Acked || s.msgs.vals[id].status == Delivered)
    ensures var s' := Lifecycle.Confirm(s, id);
            && s'.cfg == s.cfg && s'.queues == s.queues && s'.offsets == s.offsets && s'.counter == s.counter
            && s'.dlq == s.dlq && s'.msgs.keys == s.msgs.keys
            && s'.msgs.vals == s.msgs.vals[id := s.msgs.vals[id].(status := Acked)]
  {
  }

  lemma RequeueKeepsMsgs(s: Broker, id: string)
    requires id in s.msgs.vals
    ensures var s' := Lifecycle.Requeue(s, id).0;
            && s'.msgs == s.msgs && s'.dlq == s.dlq && s'.cfg == s.cfg
            && s'.offsets == s.offsets && s'.counter == s.counter
  {
    hide CheckBody;
  }

  lemma HandBackOneIn(s: Broker, id: string)
    requires id in s.msgs.vals
    ensures id in HandBackOne(s, id).msgs.vals
  {
  }

  /** Registry aside, only the dead-letter list moves. */
  ghost predicate SameRest(s: Broker, s': Broker) {
    s'.cfg == s.cfg && s'.queues == s.queues && s'.offsets == s.offsets && s'.counter == s.counter
  }

  lemma {:induction false} CheckTimeoutsKeeps(s: Broker, n: nat, now: real)
    requires n <= |s.msgs.keys|
    ensures SameRest(s, CheckTimeouts(s, n, now).0)
  {
    hide Fail, TimedOut;
    if n > 0 {
      CheckTimeoutsKeeps(s, n - 1, now);
      var s1 := CheckTimeouts(s, n - 1, now).0;
      if s.msgs.keys[n - 1] in s1.msgs.vals {
        FailShape(s1, s.msgs.keys[n - 1]);
      }
    }
  }

  lemma {:induction false} CheckTtlKeeps(s: Broker, n: nat, now: real)
    requires n <= |s.msgs.keys|
    ensures SameRest(s, CheckTtl(s, n, now))
  {
    hide Expire, TtlExpired;
    if n > 0 {
      CheckTtlKeeps(s, n - 1, now);
      var s1 := CheckTtl(s, n - 1, now);
      if s.msgs.keys[n - 1] in s1.msgs.vals {
        ExpireShape(s1, s.msgs.keys[n - 1]);
      }
    }
  }

  lemma TtlSweepKeeps(s: Broker, now: real)
    ensures SameRest(s, TtlSweep(s, now))
  {
    CheckTtlKeeps(s, |s.msgs.keys|, now);
  }

  lemma {:induction false} UnburyEachKeeps(s: Broker, ids: seq<string>, n: nat)
    requires n <= |ids|
    ensures SameRest(s, UnburyEach(s, ids, n))
  {
    hide Unbury;
    if n > 0 {
      UnburyEachKeeps(s, ids, n - 1);
      var s1 := UnburyEach(s, ids, n - 1);
      if ids[n - 1] in s1.msgs.vals {
        UnburyShape(s1, ids[n - 1]);
      }
    }
  }

  lemma RegisterFields(s: Broker, m: Msg)
    ensures var s' := Register(s, m);
            && s'.cfg == s.cfg && s'.queues == s.queues && s'.offsets == s.offsets && s'.counter == s.counter
            && s'.dlq == s.dlq
  {
  }
}
