/** What becomes of one message that is acknowledged, or PENDING in no queue, in runs with TTL sweeps and whatever the
    other messages do. */
module Finality {

  import opened Common
  import opened Dicts
  import opened Lifecycle
  import opened LifecycleInvariant
  import opened LifecycleActions
  import opened LifecycleRuns
  import opened DeadLetters
  import opened TtlRuns

  // ---------- At rest ----------

  /** Acknowledged or PENDING, in no queue and not among the dead letters. This speaks of one message only: the rest
      of the broker may be in any state, also one that an expired queue entry has left in disagreement. */
  ghost predicate AtRest(s: Broker, id: string) {
    && s.msgs.Valid()
    && id in s.msgs.vals
    && (s.msgs.vals[id].status == Acked || s.msgs.vals[id].status == Pending)
    && !Queued(s, id) && id !in s.dlq
  }

  /** At rest in `s` with the record it had in `s0`, and delivered no more often. */
  ghost predicate Rests(s0: Broker, s: Broker, id: string) {
    && AtRest(s, id)
    && s.cfg == s0.cfg
    && id in s0.msgs.vals && s.msgs.vals[id] == s0.msgs.vals[id]
    && Count(s.trace, Delivery(id)) == Count(s0.trace, Delivery(id))
  }

  lemma RestStart(s: Broker, id: string)
    requires AtRest(s, id)
    ensures Rests(s, s, id)
  {
  }

  // ---------- Actions on other messages ----------

  lemma ChangeRests(s0: Broker, s: Broker, id: string, j: string, m: Msg, e: Event, dlq: seq<string>)
    requires Rests(s0, s, id) && j in s.msgs.vals && j != id && id !in dlq && e != Delivery(id)
    ensures Rests(s0, Change(s, j, m, e, dlq), id)
  {
    hide Queued, Count;
    SameQueuesSameQueued(s, Change(s, j, m, e, dlq), id);
    CountNote(s.trace, e, Delivery(id));
  }

  lemma RequeueRests(s0: Broker, s: Broker, id: string, j: string)
    requires Rests(s0, s, id) && j in s.msgs.vals && j != id
    ensures Rests(s0, Requeue(s, j).0, id) && Requeue(s, j).0.msgs == s.msgs
  {
    hide CheckBody, Rests;
    var m := s.msgs.vals[j];
    if m.target in s.queues && Enqueue(s, m.target, j, m.body).Ok? {
      EnqueueRests(s0, s, id, m.target, j, m.body);
    }
  }

  lemma EnqueueRests(s0: Broker, s: Broker, id: string, queue: string, j: string, body: string)
    requires Rests(s0, s, id) && j != id && Enqueue(s, queue, j, body).Ok?
    ensures Rests(s0, Enqueue(s, queue, j, body).value, id)
  {
    hide Queued, Count, CheckBody;
    var q := s.queues[queue];
    QueuedAfterEnqueue(s, queue, j, id);
    NoteKeepsQueued(s.(queues := s.queues[queue := q.(items := q.items + [j])]), Enqueued(queue, j), id);
    CountNote(s.trace, Enqueued(queue, j), Delivery(id));
  }

  lemma FailRests(s0: Broker, s: Broker, id: string, j: string)
    requires Rests(s0, s, id) && j in s.msgs.vals && j != id
    ensures Rests(s0, Fail(s, j), id)
  {
    hide Rests;
    var m := s.msgs.vals[j];
    var m1 := m.(retryCount := m.retryCount + 1);
    RestsFacts(s0, s, id);
    if m1.retryCount > s.cfg.maxRetries {
      var s1 := Change(s, j, m1, Failed(j), s.dlq);
      ChangeRests(s0, s, id, j, m1, Failed(j), s.dlq);
      var dlq := if j in s.dlq then s.dlq else s.dlq + [j];
      ChangeRests(s0, s1, id, j, Aged(m1), Buried(j), dlq);
      assert Fail(s, j) == Change(s1, j, Aged(m1), Buried(j), dlq);
    } else {
      ChangeRests(s0, s, id, j, Release(m1), Failed(j), s.dlq);
      assert Fail(s, j) == Change(s, j, Release(m1), Failed(j), s.dlq);
    }
  }

  lemma RestsFacts(s0: Broker, s: Broker, id: string)
    requires Rests(s0, s, id)
    ensures s.msgs.Valid() && id in s.msgs.vals && !Queued(s, id) && id !in s.dlq
    ensures s.msgs.vals[id].status == Acked || s.msgs.vals[id].status == Pending
  {
  }

  lemma UnburyRests(s0: Broker, s: Broker, id: string, j: string)
    requires Rests(s0, s, id) && j in s.msgs.vals && j != id
    ensures Rests(s0, Unbury(s, j), id)
  {
    hide Rests, Revived;
    RestsFacts(s0, s, id);
    RemoveAdds(s.dlq, j, id);
    ChangeRests(s0, s, id, j, Revived(s.msgs.vals[j]), Replayed(j), Remove(s.dlq, j));
    assert Unbury(s, j) == Change(s, j, Revived(s.msgs.vals[j]), Replayed(j), Remove(s.dlq, j));
  }

  lemma {:induction false} RemoveAdds(s: seq<string>, x: string, y: string)
    requires y !in s
    ensures y !in Remove(s, x)
  {
    if s != [] {
      RemoveAdds(s[1..], x, y);
    }
  }

  lemma ConfirmRests(s0: Broker, s: Broker, id: string, j: string, consumer: string)
    requires Rests(s0, s, id) && j in s.msgs.vals && AckCheck(s.msgs.vals[j], consumer) == AckOk
    ensures Rests(s0, Confirm(s, j), id)
  {
    hide Rests;
    RestsFacts(s0, s, id);
    if s.msgs.vals[j].status != Acked {
      ChangeRests(s0, s, id, j, s.msgs.vals[j].(status := Acked), Confirmed(j), s.dlq);
      assert Confirm(s, j) == Change(s, j, s.msgs.vals[j].(status := Acked), Confirmed(j), s.dlq);
    }
  }

  lemma HandBackOneRests(s0: Broker, s: Broker, id: string, j: string)
    requires Rests(s0, s, id) && j in s.msgs.vals && j != id
    ensures Rests(s0, HandBackOne(s, j), id)
  {
    hide Rests;
    RestsFacts(s0, s, id);
    ChangeRests(s0, s, id, j, Release(s.msgs.vals[j]), HandedBack(j), s.dlq);
    assert HandBackOne(s, j) == Change(s, j, Release(s.msgs.vals[j]), HandedBack(j), s.dlq);
  }

  lemma DropHeadRests(s0: Broker, s: Broker, id: string, queue: string)
    requires Rests(s0, s, id) && queue in s.queues && s.queues[queue].items != []
    ensures Rests(s0, DropHead(s, queue), id) && s.queues[queue].items[0] != id
  {
    hide Count;
    var items := s.queues[queue].items;
    var s' := DropHead(s, queue);
    assert items == [items[0]] + items[1..];
    assert items[0] in items;
    CountNote(s.trace, Dequeued(queue, items[0]), Delivery(id));
  }

  lemma {:induction false} ConsumeRests(s0: Broker, s: Broker, id: string, queue: string, consumer: string, now: real)
    requires Rests(s0, s, id)
    ensures Rests(s0, Consume(s, queue, consumer, now).0, id)
    decreases if queue in s.queues then |s.queues[queue].items| else 0
  {
    hide Rests;
    if queue in s.queues && s.queues[queue].items != [] {
      var head := s.queues[queue].items[0];
      DropHeadRests(s0, s, id, queue);
      var s1 := DropHead(s, queue);
      if head in s.msgs.vals {
        var m := s.msgs.vals[head].(status := Delivered, deliveredTo := consumer, deliverTime := now);
        RestsFacts(s0, s1, id);
        ChangeRests(s0, s1, id, head, m, Delivery(head), s1.dlq);
        assert Consume(s, queue, consumer, now).0 == Change(s1, head, m, Delivery(head), s1.dlq);
      } else {
        ConsumeRests(s0, s1, id, queue, consumer, now);
      }
    }
  }

  lemma RegisterRests(s0: Broker, s: Broker, id: string, counter: nat, m: Msg)
    requires Rests(s0, s, id) && m.id !in s.msgs.vals
    ensures Rests(s0, Register(s.(counter := counter), m), id)
  {
    hide Queued, Count;
    var s' := Register(s.(counter := counter), m);
    SameQueuesSameQueued(s, s', id);
    CountNote(s.trace, Registered(m.id, m.target), Delivery(id));
  }

  lemma SameRests(s0: Broker, s: Broker, s': Broker, id: string)
    requires Rests(s0, s, id)
    requires s'.cfg == s.cfg && s'.msgs == s.msgs && s'.dlq == s.dlq
    requires s'.trace == s.trace || exists q :: s'.trace == s.trace + [Created(q)]
    requires forall q :: q in s'.queues && s'.queues[q].items != [] ==> q in s.queues && s'.queues[q] == s.queues[q]
    ensures Rests(s0, s', id)
  {
    hide Count;
    if s'.trace != s.trace {
      var q :| s'.trace == s.trace + [Created(q)];
      CountNote(s.trace, Created(q), Delivery(id));
    }
  }

  // ---------- Loops ----------

  lemma {:induction false} RequeuePendingRests(s0: Broker, s: Broker, id: string, ids: seq<string>)
    requires Rests(s0, s, id) && id !in ids
    ensures Rests(s0, RequeuePending(s, ids), id)
    decreases ids
  {
    hide Rests, Requeue;
    if ids != [] {
      if ids[0] in s.msgs.vals && s.msgs.vals[ids[0]].status == Pending {
        RequeueRests(s0, s, id, ids[0]);
        RequeuePendingRests(s0, Requeue(s, ids[0]).0, id, ids[1..]);
      } else {
        RequeuePendingRests(s0, s, id, ids[1..]);
      }
    }
  }

  lemma {:induction false} RequeueEachRests(s0: Broker, s: Broker, id: string, ids: seq<string>)
    requires Rests(s0, s, id) && id !in ids
    ensures Rests(s0, RequeueEach(s, ids).0, id)
    decreases ids
  {
    hide Rests, Requeue;
    if ids != [] {
      if ids[0] in s.msgs.vals {
        RequeueRests(s0, s, id, ids[0]);
        RequeueEachRests(s0, Requeue(s, ids[0]).0, id, ids[1..]);
      } else {
        RequeueEachRests(s0, s, id, ids[1..]);
      }
    }
  }

  lemma {:induction false} CheckTimeoutsRests(s0: Broker, s: Broker, id: string, n: nat, now: real)
    requires Rests(s0, s, id) && n <= |s.msgs.keys|
    ensures Rests(s0, CheckTimeouts(s, n, now).0, id) && id !in CheckTimeouts(s, n, now).1
  {
    hide Rests, Fail, SameIds;
    if n > 0 {
      CheckTimeoutsRests(s0, s, id, n - 1, now);
      var s1 := CheckTimeouts(s, n - 1, now).0;
      RestsFacts(s0, s1, id);
      var j := s.msgs.keys[n - 1];
      if j in s1.msgs.vals && TimedOut(s1.cfg, s1.msgs.vals[j], now) {
        FailRests(s0, s1, id, j);
      }
    }
  }

  lemma SweepRests(s0: Broker, s: Broker, id: string, now: real)
    requires Rests(s0, s, id)
    ensures Rests(s0, Sweep(s, now), id)
  {
    hide Rests, CheckTimeouts, RequeuePending;
    CheckTimeoutsRests(s0, s, id, |s.msgs.keys|, now);
    var (s1, expired) := CheckTimeouts(s, |s.msgs.keys|, now);
    RequeuePendingRests(s0, s1, id, expired);
  }

  lemma {:induction false} HandBackEachRests(s0: Broker, s: Broker, id: string, ids: seq<string>, consumer: string)
    requires Rests(s0, s, id)
    ensures Rests(s0, HandBackEach(s, ids, consumer), id)
    decreases ids
  {
    hide Rests, Requeue, HandBackOne;
    if ids != [] {
      RestsFacts(s0, s, id);
      if HeldBy(s, ids[0], consumer) {
        HandBackOneRests(s0, s, id, ids[0]);
        RequeueRests(s0, HandBackOne(s, ids[0]), id, ids[0]);
        HandBackEachRests(s0, Requeue(HandBackOne(s, ids[0]), ids[0]).0, id, ids[1..], consumer);
      } else {
        HandBackEachRests(s0, s, id, ids[1..], consumer);
      }
    }
  }

  lemma {:induction false} AckEachRests(s0: Broker, s: Broker, id: string, ids: seq<string>, n: nat, consumer: string)
    requires Rests(s0, s, id) && n <= |ids|
    ensures Rests(s0, AckEach(s, ids, n, consumer).0, id)
  {
    hide Rests, Confirm, AckCheck, SameIds;
    if n > 0 {
      AckEachRests(s0, s, id, ids, n - 1, consumer);
      var s1 := AckEach(s, ids, n - 1, consumer).0;
      if ids[n - 1] in s1.msgs.vals && AckCheck(s1.msgs.vals[ids[n - 1]], consumer) == AckOk {
        ConfirmRests(s0, s1, id, ids[n - 1], consumer);
      }
    }
  }

  lemma {:induction false} UnburyEachRests(s0: Broker, s: Broker, id: string, ids: seq<string>, n: nat)
    requires Rests(s0, s, id) && id !in ids && n <= |ids|
    ensures Rests(s0, UnburyEach(s, ids, n), id)
  {
    hide Rests, Unbury, SameIds;
    if n > 0 {
      UnburyEachRests(s0, s, id, ids, n - 1);
      var s1 := UnburyEach(s, ids, n - 1);
      assert ids[n - 1] in ids;
      if ids[n - 1] in s1.msgs.vals {
        UnburyRests(s0, s1, id, ids[n - 1]);
      }
    }
  }

  lemma {:induction false} DeadFromStored(s: Broker, dlq: seq<string>, target: string, id: string)
    requires id !in dlq
    ensures id !in DeadFrom(s, dlq, target)
  {
    if dlq != [] {
      DeadFromStored(s, dlq[1..], target, id);
    }
  }

  // ---------- Commands ----------

  lemma NackRests(s0: Broker, s: Broker, id: string, i: string, consumer: string)
    requires Rests(s0, s, id)
    ensures Rests(s0, Nack(s, i, consumer).0, id)
  {
    hide Rests, Fail, Requeue;
    RestsFacts(s0, s, id);
    if HeldBy(s, i, consumer) {
      FailRests(s0, s, id, i);
      RequeueRests(s0, Fail(s, i), id, i);
    }
  }

  lemma ReplayRests(s0: Broker, s: Broker, id: string, i: string)
    requires Rests(s0, s, id)
    ensures Rests(s0, Replay(s, i).0, id)
  {
    hide Rests, Unbury, Requeue;
    RestsFacts(s0, s, id);
    if i in s.dlq && i in s.msgs.vals {
      UnburyRests(s0, s, id, i);
      RequeueRests(s0, Unbury(s, i), id, i);
    }
  }

  lemma ReplayAllRests(s0: Broker, s: Broker, id: string, target: string)
    requires Rests(s0, s, id)
    ensures Rests(s0, ReplayAll(s, target).0, id)
  {
    hide Rests, UnburyEach, RequeueEach, DeadFrom;
    RestsFacts(s0, s, id);
    var ids := DeadFrom(s, s.dlq, target);
    DeadFromStored(s, s.dlq, target, id);
    UnburyEachRests(s0, s, id, ids, |ids|);
    RequeueEachRests(s0, UnburyEach(s, ids, |ids|), id, ids);
  }

  lemma AckRests(s0: Broker, s: Broker, id: string, i: string, consumer: string)
    requires Rests(s0, s, id)
    ensures Rests(s0, Ack(s, i, consumer).0, id)
  {
    hide Rests, Confirm, AckCheck;
    if i in s.msgs.vals && AckCheck(s.msgs.vals[i], consumer) == AckOk {
      ConfirmRests(s0, s, id, i, consumer);
    }
  }

  lemma SendRests(s0: Broker, s: Broker, id: string, queue: string, body: string, ms: nat, seconds: int)
    requires Rests(s0, s, id) && NextId(s, ms) !in s.msgs.vals
    ensures Rests(s0, Send(s, queue, body, ms, seconds).0, id)
  {
    hide Rests, NextId, Send, Enqueue, Register;
    RestsFacts(s0, s, id);
    var m := NewMsg(NextId(s, ms), queue, body, seconds, 0, 0);
    var s1 := Register(s.(counter := s.counter + 1), m);
    RegisterRests(s0, s, id, s.counter + 1, m);
    SendForms(s, queue, body, ms, seconds);
    var s' := Send(s, queue, body, ms, seconds).0;
    if s' == s.(counter := s.counter + 1) {
      SameRests(s0, s, s', id);
    } else if s' != s1 {
      EnqueueRests(s0, s1, id, queue, m.id, body);
    }
  }

  lemma RegistersRest(s0: Broker, s: Broker, id: string, c: Command)
    requires Rests(s0, s, id) && Enabled(s, c) && (c.PublishCmd? || c.RestoreCmd?)
    ensures Rests(s0, Step(s, c), id)
  {
    hide Rests, NextId;
    if c.PublishCmd? && c.topicExists {
      RegisterRests(s0, s, id, s.counter + 1, NewMsg(NextId(s, c.ms), c.topic, c.body, c.seconds, 0, 0));
    }
    if c.RestoreCmd? && c.id !in s.msgs.vals {
      RegisterRests(s0, s, id, s.counter, NewMsg(c.id, c.target, c.body, c.timestamp, c.ttl, c.ackTimeout));
      assert s.(counter := s.counter) == s;
    }
  }

  lemma QueueCommandsRest(s0: Broker, s: Broker, id: string, c: Command)
    requires Rests(s0, s, id) && (c.CreateQueueCmd? || c.DeleteQueueCmd?)
    ensures Rests(s0, Step(s, c), id)
  {
    hide Rests, ValidName, Step;
    QueueCommandShape(s, c);
    SameRests(s0, s, Step(s, c), id);
  }

  lemma OffsetsRest(s0: Broker, s: Broker, id: string, c: Command)
    requires Rests(s0, s, id) && (c.FetchCmd? || c.SetOffsetCmd?)
    ensures Rests(s0, Step(s, c), id)
  {
    hide Rests, OffsetKey, OffsetOf, TopicIds;
    SameRests(s0, s, Step(s, c), id);
  }

  /** No command touches a message at rest. */
  lemma StepRests(s0: Broker, s: Broker, id: string, c: Command)
    requires Rests(s0, s, id) && Enabled(s, c)
    ensures Rests(s0, Step(s, c), id)
  {
    hide Rests, Send, Publish, Restore, Consume, Ack, Nack, Sweep, Replay, ReplayAll, AckEach, HandBackEach, FetchTopic,
      CreateQueue, DeleteQueue, SetOffset, NextId;
    match c {
      case ConsumeCmd(queue, consumer, now) => ConsumeRests(s0, s, id, queue, consumer, now);
      case NackCmd(i, consumer) => NackRests(s0, s, id, i, consumer);
      case SweepCmd(now) => SweepRests(s0, s, id, now);
      case HandBackCmd(consumer) => HandBackEachRests(s0, s, id, s.msgs.keys, consumer);
      case ReplayCmd(i) => ReplayRests(s0, s, id, i);
      case ReplayAllCmd(target) => ReplayAllRests(s0, s, id, target);
      case AckCmd(i, consumer) => AckRests(s0, s, id, i, consumer);
      case AckBatchCmd(ids, consumer) =>
        AckBatchIsAckEach(s, ids, consumer);
        AckEachRests(s0, s, id, ids, |ids|, consumer);
      case SendCmd(queue, body, ms, seconds) => SendRests(s0, s, id, queue, body, ms, seconds);
      case PublishCmd(_, _, _, _, _) => RegistersRest(s0, s, id, c);
      case RestoreCmd(_, _, _, _, _, _) => RegistersRest(s0, s, id, c);
      case CreateQueueCmd(_, _) => QueueCommandsRest(s0, s, id, c);
      case DeleteQueueCmd(_) => QueueCommandsRest(s0, s, id, c);
      case FetchCmd(_, _) => OffsetsRest(s0, s, id, c);
      case SetOffsetCmd(_, _, _) => OffsetsRest(s0, s, id, c);
    }
  }

  // ---------- TTL sweeps ----------

  /** A TTL sweep leaves a message at rest alone until it comes to it and finds it expired; then it buries it. */
  lemma {:induction false} CheckTtlRests(s0: Broker, s: Broker, id: string, n: nat, now: real)
    requires Rests(s0, s, id) && n <= |s.msgs.keys|
    ensures var s1 := CheckTtl(s, n, now);
            if id in s.msgs.keys[..n] && TtlExpired(s.cfg, s.msgs.vals[id], now)
            then id in s1.dlq && id in s1.msgs.vals && s1.msgs.vals[id] == Aged(s.msgs.vals[id])
            else Rests(s0, s1, id)
  {
    hide Rests, TtlExpired, Aged, SameIds, Expire;
    if n > 0 {
      CheckTtlRests(s0, s, id, n - 1, now);
      var s1 := CheckTtl(s, n - 1, now);
      var j := s.msgs.keys[n - 1];
      RestsFacts(s0, s, id);
      LatestKey(s.msgs, n);
      assert s.msgs.keys[..n] == s.msgs.keys[..n - 1] + [j];
      CheckTtlOthers(s, n - 1, now, j);
      if TtlExpired(s.cfg, s.msgs.vals[j], now) {
        ExpireShape(s1, j);
        if j != id && !(id in s.msgs.keys[..n - 1] && TtlExpired(s.cfg, s.msgs.vals[id], now)) {
          ExpireRests(s0, s1, id, j);
        }
      }
    }
  }

  lemma ExpireRests(s0: Broker, s: Broker, id: string, j: string)
    requires Rests(s0, s, id) && j in s.msgs.vals && j != id
    ensures Rests(s0, Expire(s, j), id)
  {
    hide Queued, Count;
    SameQueuesSameQueued(s, Expire(s, j), id);
    CountNote(s.trace, Buried(j), Delivery(id));
  }

  lemma TtlSweepRests(s0: Broker, s: Broker, id: string, now: real)
    requires Rests(s0, s, id)
    ensures var s' := TtlSweep(s, now);
            if TtlExpired(s.cfg, s.msgs.vals[id], now)
            then id in s'.dlq && id in s'.msgs.vals && s'.msgs.vals[id] == Aged(s.msgs.vals[id])
            else Rests(s0, s', id)
  {
    hide TtlExpired, Aged, CheckTtl;
    CheckTtlRests(s0, s, id, |s.msgs.keys|, now);
    assert s.msgs.keys[..|s.msgs.keys|] == s.msgs.keys;
  }

  // ---------- Runs ----------

  /** A TTL sweep of the run finds this record expired. */
  ghost predicate Lapses(cfg: Config, m: Msg, acts: seq<Action>) {
    exists n :: 0 <= n < |acts| && acts[n].TtlSweepAt? && TtlExpired(cfg, m, acts[n].now)
  }

  ghost predicate RestsThroughout(s: Broker, acts: seq<Action>, id: string) {
    forall n :: 0 <= n <= |acts| ==> Rests(s, ActAll(s, acts[..n]), id)
  }

  /** Exactly how long a message at rest stays so: until a TTL sweep finds it expired. Nothing else in a run, whatever
      happens to other messages, changes its record, queues it, buries it or delivers it. */
  lemma {:induction false} RestsUntilLapse(s: Broker, acts: seq<Action>, id: string)
    requires AtRest(s, id) && FreshIds(s, acts)
    ensures RestsThroughout(s, acts, id) <==> !Lapses(s.cfg, s.msgs.vals[id], acts)
    decreases |acts|
  {
    hide ActAll, Rests, RestsThroughout, Lapses, FreshIds, AllHarmless, TtlExpired, Act;
    if acts == [] {
      RestsAtOnce(s, acts, id);
    } else {
      var n := |acts| - 1;
      AllButLast(s, acts);
      RestsUntilLapse(s, acts[..n], id);
      RestsLast(s, acts, id);
      LapsesLast(s.cfg, s.msgs.vals[id], acts);
      ActAllLast(s, acts);
      if RestsThroughout(s, acts[..n], id) {
        RestsAtEnd(s, acts[..n], id);
        ActRests(s, ActAll(s, acts[..n]), id, acts[n]);
      }
    }
  }

  lemma ActAllLast(s: Broker, acts: seq<Action>)
    requires acts != []
    ensures ActAll(s, acts) == Act(ActAll(s, acts[..|acts| - 1]), acts[|acts| - 1])
  {
  }

  lemma RestsAtOnce(s: Broker, acts: seq<Action>, id: string)
    requires AtRest(s, id) && acts == []
    ensures RestsThroughout(s, acts, id) && !Lapses(s.cfg, s.msgs.vals[id], acts)
  {
    assert acts[..0] == [];
  }

  lemma RestsAtEnd(s: Broker, acts: seq<Action>, id: string)
    requires RestsThroughout(s, acts, id)
    ensures Rests(s, ActAll(s, acts), id)
  {
    hide ActAll, Rests;
    assert acts[..|acts|] == acts;
  }

  lemma RestsLast(s: Broker, acts: seq<Action>, id: string)
    requires acts != []
    ensures RestsThroughout(s, acts, id) <==>
            RestsThroughout(s, acts[..|acts| - 1], id) && Rests(s, ActAll(s, acts), id)
  {
    hide ActAll, Rests;
    var n := |acts| - 1;
    assert acts[..|acts|] == acts;
    forall k | 0 <= k <= n
      ensures acts[..n][..k] == acts[..k]
    {
    }
    if RestsThroughout(s, acts, id) {
      forall k | 0 <= k <= n
        ensures Rests(s, ActAll(s, acts[..n][..k]), id)
      {
        assert Rests(s, ActAll(s, acts[..k]), id);
      }
      assert Rests(s, ActAll(s, acts[..|acts|]), id);
    }
    if RestsThroughout(s, acts[..n], id) && Rests(s, ActAll(s, acts), id) {
      forall k | 0 <= k <= |acts|
        ensures Rests(s, ActAll(s, acts[..k]), id)
      {
        if k <= n {
          assert Rests(s, ActAll(s, acts[..n][..k]), id);
        }
      }
    }
  }

  lemma LapsesLast(cfg: Config, m: Msg, acts: seq<Action>)
    requires acts != []
    ensures var n := |acts| - 1;
            Lapses(cfg, m, acts) <==>
            Lapses(cfg, m, acts[..n]) || (acts[n].TtlSweepAt? && TtlExpired(cfg, m, acts[n].now))
  {
    hide TtlExpired;
    var n := |acts| - 1;
    if Lapses(cfg, m, acts[..n]) {
      var k :| 0 <= k < n && acts[..n][k].TtlSweepAt? && TtlExpired(cfg, m, acts[..n][k].now);
      assert acts[k].TtlSweepAt? && TtlExpired(cfg, m, acts[k].now);
    }
    if Lapses(cfg, m, acts) {
      var k :| 0 <= k < |acts| && acts[k].TtlSweepAt? && TtlExpired(cfg, m, acts[k].now);
      if k < n {
        assert acts[..n][k].TtlSweepAt? && TtlExpired(cfg, m, acts[..n][k].now);
      }
    }
  }

  lemma ActRests(s0: Broker, s: Broker, id: string, a: Action)
    requires Rests(s0, s, id) && (a.Cmd? ==> Enabled(s, a.c))
    ensures Rests(s0, Act(s, a), id) <==> !(a.TtlSweepAt? && TtlExpired(s0.cfg, s0.msgs.vals[id], a.now))
  {
    hide TtlExpired, Step, Enabled, TtlSweep;
    match a {
      case Cmd(c) => StepRests(s0, s, id, c);
      case TtlSweepAt(now) => TtlSweepRests(s0, s, id, now);
    }
  }

  /** An unplaced message in a run with TTL sweeps: untouched until one finds it expired, and no longer. */
  lemma UnplacedUntilLapse(s: Broker, acts: seq<Action>, id: string)
    requires InPlace(s) && Unplaced(s, id) && FreshIds(s, acts)
    ensures RestsThroughout(s, acts, id) <==> !Lapses(s.cfg, s.msgs.vals[id], acts)
  {
    hide ActAll, RestsThroughout, Lapses, FreshIds;
    RestsUntilLapse(s, acts, id);
  }

  /** The unplaced messages after a TTL sweep are those before it that have not expired. */
  lemma TtlSweepUnplaces(s: Broker, now: real, id: string)
    requires s.msgs.Valid() && DeadAgree(s)
    ensures Unplaced(TtlSweep(s, now), id) <==>
            Unplaced(s, id) && !TtlExpired(s.cfg, s.msgs.vals[id], now)
  {
    hide TtlSweep, TtlExpired, Queued, DeadAgree;
    SweepExact(s, now);
    SameQueuesSameQueued(s, TtlSweep(s, now), id);
    TtlSweepSameKeys(s, now);
  }

  lemma TtlSweepSameKeys(s: Broker, now: real)
    ensures TtlSweep(s, now).msgs.vals.Keys == s.msgs.vals.Keys
  {
  }

  // ---------- Acknowledged ----------

  predicate HasStatus(s: Broker, id: string, status: Status) {
    id in s.msgs.vals && s.msgs.vals[id].status == status
  }

  ghost predicate KeepsRecord(s: Broker, s': Broker, id: string) {
    id in s.msgs.vals && id in s'.msgs.vals && s'.msgs.vals[id] == s.msgs.vals[id]
  }

  /** No run, TTL sweeps or not, changes the record. */
  ghost predicate Final(s: Broker, id: string) {
    forall acts :: FreshIds(s, acts) ==> KeepsRecord(s, ActAll(s, acts), id)
  }

  lemma AckedNeverLapses(cfg: Config, m: Msg, acts: seq<Action>)
    requires m.status == Acked
    ensures !Lapses(cfg, m, acts)
  {
  }

  lemma {:induction false} ConsumeTakes(s: Broker, queue: string, consumer: string, now: real, id: string)
    requires queue in s.queues && id in s.queues[queue].items && id in s.msgs.vals
    ensures var s' := Consume(s, queue, consumer, now).0;
            && id in s'.msgs.vals
            && (s'.msgs.vals[id].status == Delivered ||
                (queue in s'.queues && id in s'.queues[queue].items &&
                 |s'.queues[queue].items| < |s.queues[queue].items|))
    decreases |s.queues[queue].items|
  {
    var items := s.queues[queue].items;
    assert items == [items[0]] + items[1..];
    if items[0] !in s.msgs.vals {
      ConsumeTakes(DropHead(s, queue), queue, consumer, now, id);
    }
  }

  /** What is in a queue and registered is delivered after enough consumption. */
  lemma {:induction false} QueuedComesOut(s: Broker, queue: string, id: string) returns (acts: seq<Action>)
    requires queue in s.queues && id in s.queues[queue].items && id in s.msgs.vals
    ensures forall n :: 0 <= n < |acts| ==> acts[n].Cmd? && acts[n].c.ConsumeCmd?
    ensures HasStatus(ActAll(s, acts), id, Delivered)
    decreases |s.queues[queue].items|
  {
    hide Consume;
    var a := Cmd(ConsumeCmd(queue, "", 1.0));
    var s' := Act(s, a);
    ConsumeTakes(s, queue, "", 1.0, id);
    OneAct(s, a);
    if s'.msgs.vals[id].status == Delivered {
      acts := [a];
    } else {
      var rest := QueuedComesOut(s', queue, id);
      ActAllSplit(s, [a], rest);
      acts := [a] + rest;
    }
  }

  lemma ConsumesAreFresh(s: Broker, acts: seq<Action>)
    requires forall n :: 0 <= n < |acts| ==> acts[n].Cmd? && acts[n].c.ConsumeCmd?
    ensures FreshIds(s, acts)
  {
    hide ActAll;
  }

  lemma OneAct(s: Broker, a: Action)
    ensures ActAll(s, [a]) == Act(s, a)
  {
    assert [a][..0] == [];
  }

  /** Exactly when acknowledged is final, in any state and against every run: when the message is in no queue and not
      among the dead letters. */
  lemma AckedIsFinalIff(s: Broker, id: string)
    requires s.msgs.Valid() && id in s.msgs.vals && s.msgs.vals[id].status == Acked
    ensures Final(s, id) <==> !Queued(s, id) && id !in s.dlq
  {
    hide ActAll, FreshIds;
    if !Queued(s, id) && id !in s.dlq {
      forall acts | FreshIds(s, acts)
        ensures KeepsRecord(s, ActAll(s, acts), id)
      {
        RestsUntilLapse(s, acts, id);
        AckedNeverLapses(s.cfg, s.msgs.vals[id], acts);
        RestsAtEnd(s, acts, id);
      }
    } else if id in s.dlq {
      ReplayUnacks(s, id);
    } else {
      var queue :| queue in s.queues && id in s.queues[queue].items;
      var acts := QueuedComesOut(s, queue, id);
      ConsumesAreFresh(s, acts);
      assert !KeepsRecord(s, ActAll(s, acts), id);
    }
  }

  /** REPLAY takes even an acknowledged message out of the dead-letter store, PENDING. */
  lemma ReplayUnacks(s: Broker, id: string)
    requires id in s.msgs.vals && s.msgs.vals[id].status == Acked && id in s.dlq
    ensures HasStatus(Step(s, ReplayCmd(id)), id, Pending)
    ensures !Final(s, id)
  {
    hide CheckBody;
    var a := Cmd(ReplayCmd(id));
    OneAct(s, a);
    assert FreshIds(s, [a]);
    assert !KeepsRecord(s, ActAll(s, [a]), id);
  }

  /** How a message gets there: the TTL sweep buries the head of a queue but leaves its id in it, CONSUME hands it out,
      and its consumer acknowledges it. The acknowledgement is not final. */
  lemma ExpiredHeadAckIsNotFinal(s: Broker, queue: string, consumer: string, swept: real, now: real)
    requires s.msgs.Valid() && OnePlace(s) && queue in s.queues && s.queues[queue].items != []
    requires var id := s.queues[queue].items[0];
             id in s.msgs.vals && TtlExpired(s.cfg, s.msgs.vals[id], swept)
    ensures var id := s.queues[queue].items[0];
            var s' := Ack(Consume(TtlSweep(s, swept), queue, consumer, now).0, id, consumer).0;
            && HasStatus(s', id, Acked) && id in s'.dlq
            && !Final(s', id)
            && HasStatus(Step(s', ReplayCmd(id)), id, Pending)
  {
    hide TtlExpired, TtlSweep, Final;
    var id := s.queues[queue].items[0];
    SweepExact(s, swept);
    var s1 := TtlSweep(s, swept);
    assert id in s1.dlq;
    var s2 := Consume(s1, queue, consumer, now).0;
    HeadIsHandedOut(s1, queue, consumer, now);
    var s' := Ack(s2, id, consumer).0;
    ReplayUnacks(s', id);
  }

  lemma HeadIsHandedOut(s: Broker, queue: string, consumer: string, now: real)
    requires queue in s.queues && s.queues[queue].items != [] && s.queues[queue].items[0] in s.msgs.vals
    ensures var id := s.queues[queue].items[0];
            var s' := Consume(s, queue, consumer, now).0;
            HeldBy(s', id, consumer) && s'.dlq == s.dlq
  {
  }

  /** Where messages are in one place, acknowledged is final. */
  lemma AckedIsFinalInPlace(s: Broker, id: string)
    requires InPlace(s) && id in s.msgs.vals && s.msgs.vals[id].status == Acked
    ensures Final(s, id)
  {
    hide Final;
    if Queued(s, id) {
      OnlyPendingQueued(s, id);
    }
    AckedIsFinalIff(s, id);
  }

  /** From the empty broker, through any run whose TTL sweeps find no expired message in a queue: what is acknowledged
      then is final against every continuation, whatever its TTL sweeps find. */
  lemma AckedIsFinalWithTtl(cfg: Config, before: seq<Action>, after: seq<Action>, id: string)
    requires FreshIds(Start(cfg), before) && AllHarmless(Start(cfg), before)
    requires var s := ActAll(Start(cfg), before);
             id in s.msgs.vals && s.msgs.vals[id].status == Acked && FreshIds(s, after)
    ensures KeepsRecord(ActAll(Start(cfg), before), ActAll(Start(cfg), before + after), id)
  {
    hide ActAll, FreshIds, AllHarmless, InPlace;
    StartKept(cfg);
    RunKept(Start(cfg), before);
    AckedIsFinalInPlace(ActAll(Start(cfg), before), id);
    ActAllSplit(Start(cfg), before, after);
  }
}
