/** Runs with TTL sweeps among the commands: what survives them, and exactly which sweeps break it. */
module TtlRuns {

  import opened Common
  import opened Dicts
  import opened Lifecycle
  import opened LifecycleInvariant
  import opened LifecycleActions
  import opened LifecycleRecords
  import opened LifecycleRuns
  import opened DeadLetters

  datatype Action = Cmd(c: Command) | TtlSweepAt(now: real)

  ghost function Act(s: Broker, a: Action): Broker {
    match a
    case Cmd(c) => Step(s, c)
    case TtlSweepAt(now) => TtlSweep(s, now)
  }

  ghost function ActAll(s: Broker, acts: seq<Action>): Broker {
    if acts == [] then s
    else
      var n := |acts| - 1;
      Act(ActAll(s, acts[..n]), acts[n])
  }

  /** New messages get unused ids. */
  ghost predicate FreshIds(s: Broker, acts: seq<Action>) {
    forall n :: 0 <= n < |acts| && acts[n].Cmd? ==> Enabled(ActAll(s, acts[..n]), acts[n].c)
  }

  /** A TTL sweep that finds no expired message in a queue. */
  ghost predicate Harmless(s: Broker, a: Action) {
    a.TtlSweepAt? ==>
      forall id :: Queued(s, id) ==> id in s.msgs.vals && !TtlExpired(s.cfg, s.msgs.vals[id], a.now)
  }

  // ---------- What every action keeps ----------

  /** Each message is in one place. Unlike the invariant of runs without TTL sweeps this says nothing of retries: an
      expired message dies with any number of them. */
  ghost predicate InPlace(s: Broker) {
    && s.msgs.Valid()
    && OnePlace(s)
    && (forall id :: id in s.msgs.vals ==> s.msgs.vals[id].status != Expired)
  }

  lemma InvInPlace(s: Broker)
    requires Inv(s)
    ensures InPlace(s)
  {
    hide Accounts, Homes, Fifo, OnePlace, QueueOk;
    InvGivesOnePlace(s);
  }

  lemma OnlyPendingQueued(s: Broker, id: string)
    requires OnePlace(s) && Queued(s, id)
    ensures id in s.msgs.vals && s.msgs.vals[id].status == Pending && id !in s.dlq
  {
  }

  /** One record changes outside the queues. */
  lemma ChangeKept(s: Broker, id: string, m: Msg, e: Event, dlq: seq<string>)
    requires InPlace(s) && id in s.msgs.vals && !Queued(s, id)
    requires m.status != Expired && DlqFollows(s, id, m, dlq)
    ensures InPlace(Change(s, id, m, e, dlq))
    ensures forall j :: Queued(Change(s, id, m, e, dlq), j) <==> Queued(s, j)
  {
    var s' := Change(s, id, m, e, dlq);
    forall j
      ensures Queued(s', j) <==> Queued(s, j)
    {
      SameQueuesSameQueued(s, s', j);
    }
    hide Queued, OnePlace;
    ChangeOnePlace(s, id, m, e, dlq);
  }

  lemma ChangeOnePlace(s: Broker, id: string, m: Msg, e: Event, dlq: seq<string>)
    requires OnePlace(s) && id in s.msgs.vals && !Queued(s, id) && DlqFollows(s, id, m, dlq)
    ensures OnePlace(Change(s, id, m, e, dlq))
  {
    var s' := Change(s, id, m, e, dlq);
    forall q, j | q in s'.queues && j in s'.queues[q].items
      ensures j in s'.msgs.vals && s'.msgs.vals[j].status == Pending && s'.msgs.vals[j].target == q
    {
      assert Queued(s, j);
    }
  }

  /** A PENDING message outside the queues joins its own. */
  lemma EnqueueKept(s: Broker, id: string)
    requires InPlace(s) && id in s.msgs.vals && !Queued(s, id) && s.msgs.vals[id].status == Pending
    requires s.msgs.vals[id].target in s.queues
    ensures var target := s.msgs.vals[id].target;
            var q := s.queues[target];
            var s' := Note(s.(queues := s.queues[target := q.(items := q.items + [id])]), Enqueued(target, id));
            InPlace(s') && forall j :: j != id ==> (Queued(s', j) <==> Queued(s, j))
  {
    var target := s.msgs.vals[id].target;
    var q := s.queues[target];
    var s' := Note(s.(queues := s.queues[target := q.(items := q.items + [id])]), Enqueued(target, id));
    forall j | j != id
      ensures Queued(s', j) <==> Queued(s, j)
    {
      QueuedAfterEnqueue(s, target, id, j);
      NoteKeepsQueued(s.(queues := s.queues[target := q.(items := q.items + [id])]), Enqueued(target, id), j);
    }
    NoDupSnoc(q.items, id);
  }

  lemma RequeueKept(s: Broker, id: string)
    requires InPlace(s) && id in s.msgs.vals && !Queued(s, id) && s.msgs.vals[id].status == Pending
    ensures InPlace(Requeue(s, id).0) && Requeue(s, id).0.msgs == s.msgs
    ensures forall j :: j != id ==> (Queued(Requeue(s, id).0, j) <==> Queued(s, j))
  {
    hide InPlace, Queued, CheckBody;
    var m := s.msgs.vals[id];
    if m.target in s.queues && Enqueue(s, m.target, id, m.body).Ok? {
      EnqueueKept(s, id);
    }
  }

  /** One more failed delivery. */
  lemma FailKept(s: Broker, id: string)
    requires InPlace(s) && id in s.msgs.vals && s.msgs.vals[id].status == Delivered
    ensures InPlace(Fail(s, id))
    ensures forall j :: Queued(Fail(s, id), j) <==> Queued(s, j)
  {
    hide InPlace, Queued;
    DeliveredOutside(s, id);
    var m := s.msgs.vals[id];
    var m1 := m.(retryCount := m.retryCount + 1);
    if m1.retryCount > s.cfg.maxRetries {
      var s1 := Change(s, id, m1, Failed(id), s.dlq);
      ChangeKept(s, id, m1, Failed(id), s.dlq);
      var dlq := s.dlq + [id];
      NoDupSnoc(s.dlq, id);
      ChangeKept(s1, id, Aged(m1), Buried(id), dlq);
      assert Fail(s, id) == Change(s1, id, Aged(m1), Buried(id), dlq);
    } else {
      ChangeKept(s, id, Release(m1), Failed(id), s.dlq);
      assert Fail(s, id) == Change(s, id, Release(m1), Failed(id), s.dlq);
    }
  }

  /** A delivered message is in no queue and not dead, and was not acknowledged before. */
  lemma DeliveredOutside(s: Broker, id: string)
    requires InPlace(s) && id in s.msgs.vals && s.msgs.vals[id].status == Delivered
    ensures !Queued(s, id) && id !in s.dlq && NoDup(s.dlq)
    ensures forall j :: j in s.dlq <==> j in s.msgs.vals && s.msgs.vals[j].status == Dead
  {
  }

  /** A dead message is brought back. */
  lemma UnburyKept(s: Broker, id: string)
    requires InPlace(s) && id in s.msgs.vals && s.msgs.vals[id].status == Dead
    ensures InPlace(Unbury(s, id))
    ensures forall j :: Queued(Unbury(s, id), j) <==> Queued(s, j)
    ensures !Queued(s, id)
  {
    hide InPlace, Queued;
    DeadOutside(s, id);
    RemoveNoDup(s.dlq, id);
    ChangeKept(s, id, Revived(s.msgs.vals[id]), Replayed(id), Remove(s.dlq, id));
    assert Unbury(s, id) == Change(s, id, Revived(s.msgs.vals[id]), Replayed(id), Remove(s.dlq, id));
  }

  lemma DeadOutside(s: Broker, id: string)
    requires InPlace(s) && id in s.msgs.vals && s.msgs.vals[id].status == Dead
    ensures !Queued(s, id) && NoDup(s.dlq)
    ensures forall j :: j in s.dlq <==> j in s.msgs.vals && s.msgs.vals[j].status == Dead
  {
  }

  lemma ConfirmKept(s: Broker, id: string)
    requires InPlace(s) && id in s.msgs.vals
    requires s.msgs.vals[id].status == Delivered || s.msgs.vals[id].status == Acked
    ensures InPlace(Confirm(s, id))
  {
    hide InPlace, Queued;
    if s.msgs.vals[id].status == Delivered {
      DeliveredOutside(s, id);
      ChangeKept(s, id, s.msgs.vals[id].(status := Acked), Confirmed(id), s.dlq);
      assert Confirm(s, id) == Change(s, id, s.msgs.vals[id].(status := Acked), Confirmed(id), s.dlq);
    }
  }

  lemma HandBackOneKept(s: Broker, id: string)
    requires InPlace(s) && id in s.msgs.vals && s.msgs.vals[id].status == Delivered
    ensures InPlace(HandBackOne(s, id))
    ensures forall j :: Queued(HandBackOne(s, id), j) <==> Queued(s, j)
  {
    hide InPlace, Queued;
    DeliveredOutside(s, id);
    ChangeKept(s, id, Release(s.msgs.vals[id]), HandedBack(id), s.dlq);
    assert HandBackOne(s, id) == Change(s, id, Release(s.msgs.vals[id]), HandedBack(id), s.dlq);
  }

  /** The head of a queue is delivered. */
  lemma ConsumeKept(s: Broker, queue: string, consumer: string, now: real)
    requires InPlace(s)
    ensures InPlace(Consume(s, queue, consumer, now).0)
  {
    hide InPlace, Queued;
    if queue in s.queues && s.queues[queue].items != [] {
      var id := s.queues[queue].items[0];
      HeadKept(s, queue);
      var s1 := DropHead(s, queue);
      var m := s.msgs.vals[id].(status := Delivered, deliveredTo := consumer, deliverTime := now);
      assert s1.dlq == s.dlq && s1.msgs == s.msgs;
      ChangeKept(s1, id, m, Delivery(id), s1.dlq);
      assert Consume(s, queue, consumer, now).0 == Change(s1, id, m, Delivery(id), s1.dlq);
    }
  }

  lemma HeadKept(s: Broker, queue: string)
    requires InPlace(s) && queue in s.queues && s.queues[queue].items != []
    ensures var id := s.queues[queue].items[0];
            && InPlace(DropHead(s, queue)) && !Queued(DropHead(s, queue), id)
            && id in s.msgs.vals && s.msgs.vals[id].status == Pending && id !in s.dlq && NoDup(s.dlq)
            && forall j :: j in s.dlq <==> j in s.msgs.vals && s.msgs.vals[j].status == Dead
  {
    HeadOnePlace(s, queue);
  }

  lemma HeadOnePlace(s: Broker, queue: string)
    requires OnePlace(s) && queue in s.queues && s.queues[queue].items != []
    ensures OnePlace(DropHead(s, queue)) && !Queued(DropHead(s, queue), s.queues[queue].items[0])
    ensures s.queues[queue].items[0] in s.queues[queue].items
    ensures forall j :: Queued(DropHead(s, queue), j) ==> Queued(s, j)
  {
    hide NoDup;
    var items := s.queues[queue].items;
    assert items[0] in items;
    var s' := DropHead(s, queue);
    forall q, j | q in s'.queues && j in s'.queues[q].items
      ensures j in s.queues[q].items && j != items[0]
    {
      LeftBehind(s, queue, q, j);
    }
    forall q | q in s'.queues
      ensures NoDup(s'.queues[q].items)
    {
      if q == queue {
        TailNoDup(items);
      }
    }
    forall j | Queued(s', j)
      ensures Queued(s, j) && j != items[0]
    {
      var q :| q in s'.queues && j in s'.queues[q].items;
      assert q in s.queues && j in s.queues[q].items;
    }
  }

  lemma LeftBehind(s: Broker, queue: string, q: string, j: string)
    requires OnePlace(s) && queue in s.queues && s.queues[queue].items != []
    requires q in s.queues && j in DropHead(s, queue).queues[q].items
    ensures j in s.queues[q].items && j != s.queues[queue].items[0]
  {
    hide NoDup;
    if q == queue {
      TailOf(s.queues[queue].items, j);
    } else {
      var head := s.queues[queue].items[0];
      assert head in s.queues[queue].items;
      assert s.msgs.vals[j].target == q && s.msgs.vals[head].target == queue;
    }
  }

  lemma TailOf(items: seq<string>, j: string)
    requires items != [] && NoDup(items) && j in items[1..]
    ensures j in items && j != items[0]
  {
    var i :| 0 <= i < |items[1..]| && items[1..][i] == j;
    assert items[i + 1] == j;
  }

  lemma TailNoDup(items: seq<string>)
    requires items != [] && NoDup(items)
    ensures NoDup(items[1..])
  {
  }

  /** One more message, under a new id. */
  lemma RegisterKept(s: Broker, counter: nat, m: Msg)
    requires InPlace(s) && m.id !in s.msgs.vals && m.status == Pending
    ensures InPlace(Register(s.(counter := counter), m)) && !Queued(Register(s.(counter := counter), m), m.id)
  {
    hide OnePlace;
    var s' := Register(s.(counter := counter), m);
    forall j
      ensures Queued(s', j) <==> Queued(s, j)
    {
      SameQueuesSameQueued(s, s', j);
    }
    hide Queued;
    RegisterOnePlace(s, counter, m);
  }

  lemma RegisterOnePlace(s: Broker, counter: nat, m: Msg)
    requires OnePlace(s) && m.id !in s.msgs.vals && m.status == Pending
    ensures OnePlace(Register(s.(counter := counter), m)) && !Queued(s, m.id)
  {
  }

  /** Nothing happens to messages, queues or dead letters. */
  lemma SameKept(s: Broker, s': Broker)
    requires InPlace(s)
    requires s'.msgs == s.msgs && s'.queues == s.queues && s'.dlq == s.dlq && s'.trace == s.trace
    ensures InPlace(s')
  {
  }

  // ---------- Loops ----------

  lemma {:induction false} RequeuePendingKept(s: Broker, ids: seq<string>)
    requires InPlace(s) && Loose(s, ids) && NoDup(ids)
    ensures InPlace(RequeuePending(s, ids))
    decreases ids
  {
    hide InPlace, Queued, Requeue;
    if ids != [] {
      var id := ids[0];
      assert id in ids && id !in ids[1..];
      RequeueKept(s, id);
      RequeuePendingKept(Requeue(s, id).0, ids[1..]) by {
        assert forall j :: j in ids[1..] ==> j in ids;
      }
    }
  }

  lemma {:induction false} RequeueEachKept(s: Broker, ids: seq<string>)
    requires InPlace(s) && Loose(s, ids) && NoDup(ids)
    ensures InPlace(RequeueEach(s, ids).0)
    decreases ids
  {
    hide InPlace, Queued, Requeue;
    if ids != [] {
      var id := ids[0];
      assert id in ids && id !in ids[1..];
      RequeueKept(s, id);
      RequeueEachKept(Requeue(s, id).0, ids[1..]) by {
        assert forall j :: j in ids[1..] ==> j in ids;
      }
    }
  }

  lemma {:induction false} CheckTimeoutsKept(s: Broker, n: nat, now: real)
    requires InPlace(s) && n <= |s.msgs.keys|
    ensures var (s1, expired) := CheckTimeouts(s, n, now);
            && InPlace(s1) && Loose(s1, expired) && NoDup(expired)
            && (forall id :: id in expired ==> id in s.msgs.keys[..n])
  {
    hide InPlace, Queued, Fail, TimedOut, SameIds, OnePlace;
    if n > 0 {
      CheckTimeoutsKept(s, n - 1, now);
      var (s1, expired) := CheckTimeouts(s, n - 1, now);
      var id := s.msgs.keys[n - 1];
      KeptValid(s);
      LatestKey(s.msgs, n);
      assert s.msgs.keys[..n] == s.msgs.keys[..n - 1] + [id];
      hide Loose;
      if id in s1.msgs.vals && TimedOut(s1.cfg, s1.msgs.vals[id], now) {
        OneTimeoutKept(s1, id, expired, now);
      }
    }
  }

  lemma KeptValid(s: Broker)
    requires InPlace(s)
    ensures s.msgs.Valid() && OnePlace(s)
  {
  }

  lemma OneTimeoutKept(s: Broker, id: string, expired: seq<string>, now: real)
    requires InPlace(s) && id in s.msgs.vals && TimedOut(s.cfg, s.msgs.vals[id], now)
    requires Loose(s, expired) && NoDup(expired) && id !in expired
    ensures var s' := Fail(s, id);
            && InPlace(s') && Loose(s', expired) && NoDup(expired + [id])
            && (s'.msgs.vals[id].status == Pending ==> Loose(s', expired + [id]))
  {
    hide InPlace, Queued, Fail, FailedMsg;
    FailKept(s, id);
    FailShape(s, id);
    DeliveredOutside(s, id);
    NoDupSnoc(expired, id);
  }

  lemma SweepKept(s: Broker, now: real)
    requires InPlace(s)
    ensures InPlace(Sweep(s, now))
  {
    hide InPlace, Loose, CheckTimeouts, RequeuePending;
    CheckTimeoutsKept(s, |s.msgs.keys|, now);
    RequeuePendingKept(CheckTimeouts(s, |s.msgs.keys|, now).0, CheckTimeouts(s, |s.msgs.keys|, now).1);
  }

  lemma {:induction false} HandBackEachKept(s: Broker, ids: seq<string>, consumer: string)
    requires InPlace(s)
    ensures InPlace(HandBackEach(s, ids, consumer))
    decreases ids
  {
    hide InPlace, Queued, Requeue;
    if ids != [] {
      var id := ids[0];
      if HeldBy(s, id, consumer) {
        HandBackOneKept(s, id);
        DeliveredOutside(s, id);
        RequeueKept(HandBackOne(s, id), id);
        HandBackEachKept(Requeue(HandBackOne(s, id), id).0, ids[1..], consumer);
      } else {
        HandBackEachKept(s, ids[1..], consumer);
      }
    }
  }

  lemma {:induction false} AckEachKept(s: Broker, ids: seq<string>, n: nat, consumer: string)
    requires InPlace(s) && n <= |ids|
    ensures InPlace(AckEach(s, ids, n, consumer).0)
  {
    hide InPlace, Confirm, SameIds;
    if n > 0 {
      AckEachKept(s, ids, n - 1, consumer);
      var s1 := AckEach(s, ids, n - 1, consumer).0;
      if ids[n - 1] in s1.msgs.vals && AckCheck(s1.msgs.vals[ids[n - 1]], consumer) == AckOk {
        ConfirmKept(s1, ids[n - 1]);
      }
    }
  }

  lemma AckKept(s: Broker, id: string, consumer: string)
    requires InPlace(s)
    ensures InPlace(Ack(s, id, consumer).0)
  {
    hide InPlace, Confirm;
    if id in s.msgs.vals && AckCheck(s.msgs.vals[id], consumer) == AckOk {
      ConfirmKept(s, id);
    }
  }

  lemma NackKept(s: Broker, id: string, consumer: string)
    requires InPlace(s)
    ensures InPlace(Nack(s, id, consumer).0)
  {
    hide InPlace, Queued, Fail, FailedMsg, Requeue;
    if HeldBy(s, id, consumer) {
      FailKept(s, id);
      DeliveredOutside(s, id);
      if Fail(s, id).msgs.vals[id].status == Pending {
        RequeueKept(Fail(s, id), id);
      }
    }
  }

  lemma ReplayKept(s: Broker, id: string)
    requires InPlace(s)
    ensures InPlace(Replay(s, id).0)
  {
    hide InPlace, Queued, Requeue, Unbury;
    DeadKeys(s);
    if id in s.dlq {
      UnburyKept(s, id);
      UnburyShape(s, id);
      RequeueKept(Unbury(s, id), id);
    }
  }

  lemma DeadKeys(s: Broker)
    requires InPlace(s)
    ensures NoDup(s.dlq) && forall id :: id in s.dlq ==> id in s.msgs.vals && s.msgs.vals[id].status == Dead
  {
  }

  lemma {:induction false} UnburyEachKept(s: Broker, ids: seq<string>, n: nat)
    requires InPlace(s) && n <= |ids| && NoDup(ids)
    requires forall id :: id in ids ==> id in s.msgs.vals && s.msgs.vals[id].status == Dead
    ensures var s1 := UnburyEach(s, ids, n);
            && InPlace(s1) && Loose(s1, ids[..n])
            && SameApart(s, s1, ids[..n])
  {
    hide InPlace, Queued, Unbury, Revived, SameIds;
    if n > 0 {
      hide Loose, SameApart;
      UnburyEachKept(s, ids, n - 1);
      UnburyOneMoreKept(s, UnburyEach(s, ids, n - 1), ids, n);
    }
  }

  /** The records other than those of `ids` are as they were. */
  ghost predicate SameApart(s: Broker, s1: Broker, ids: seq<string>) {
    forall id :: id in s.msgs.vals && id !in ids ==> id in s1.msgs.vals && s1.msgs.vals[id] == s.msgs.vals[id]
  }

  lemma UnburyOneMoreKept(s: Broker, s1: Broker, ids: seq<string>, n: nat)
    requires 0 < n <= |ids| && NoDup(ids) && ids[n - 1] in s.msgs.vals && s.msgs.vals[ids[n - 1]].status == Dead
    requires InPlace(s1) && Loose(s1, ids[..n - 1]) && SameApart(s, s1, ids[..n - 1])
    ensures ids[n - 1] in s1.msgs.vals
    ensures var s2 := Unbury(s1, ids[n - 1]);
            InPlace(s2) && Loose(s2, ids[..n]) && SameApart(s, s2, ids[..n])
  {
    hide InPlace, Queued, Unbury, Revived, SameIds;
    var id := ids[n - 1];
    assert ids[..n] == ids[..n - 1] + [id];
    assert id !in ids[..n - 1];
    UnburyKept(s1, id);
    UnburyShape(s1, id);
    RevivedStatus(s1.msgs.vals[id]);
  }

  lemma RevivedStatus(m: Msg)
    ensures Revived(m).status == Pending
  {
  }

  lemma ReplayAllKept(s: Broker, target: string)
    requires InPlace(s)
    ensures InPlace(ReplayAll(s, target).0)
  {
    hide InPlace, Queued, UnburyEach, RequeueEach, DeadFrom;
    var ids := DeadFrom(s, s.dlq, target);
    DeadKeys(s);
    DeadFromExact(s, s.dlq, target);
    UnburyEachKept(s, ids, |ids|);
    assert ids[..|ids|] == ids;
    RequeueEachKept(UnburyEach(s, ids, |ids|), ids);
  }

  lemma SendKept(s: Broker, queue: string, body: string, ms: nat, seconds: int)
    requires InPlace(s) && NextId(s, ms) !in s.msgs.vals
    ensures InPlace(Send(s, queue, body, ms, seconds).0)
  {
    hide InPlace, Queued, NextId, Send, Enqueue, Register;
    var id := NextId(s, ms);
    var m := NewMsg(id, queue, body, seconds, 0, 0);
    var s1 := Register(s.(counter := s.counter + 1), m);
    KeptValid(s);
    RegisterKept(s, s.counter + 1, m);
    SendForms(s, queue, body, ms, seconds);
    var s' := Send(s, queue, body, ms, seconds).0;
    if s' == s.(counter := s.counter + 1) {
      SameKept(s, s');
    } else if s' != s1 {
      EnqueuedKept(s1, queue, id, body);
    }
  }

  lemma EnqueuedKept(s: Broker, queue: string, id: string, body: string)
    requires InPlace(s) && id in s.msgs.vals && !Queued(s, id) && s.msgs.vals[id].status == Pending
    requires s.msgs.vals[id].target == queue
    requires Enqueue(s, queue, id, body).Ok?
    ensures InPlace(Enqueue(s, queue, id, body).value)
  {
    hide InPlace, Queued, CheckBody;
    EnqueueKept(s, id);
  }

  /** The three states SEND can end in: withdrawn, registered, registered and queued. */
  lemma SendForms(s: Broker, queue: string, body: string, ms: nat, seconds: int)
    requires s.msgs.Valid() && NextId(s, ms) !in s.msgs.vals
    ensures var id := NextId(s, ms);
            var m := NewMsg(id, queue, body, seconds, 0, 0);
            var s1 := Register(s.(counter := s.counter + 1), m);
            var s' := Send(s, queue, body, ms, seconds).0;
            && id in s1.msgs.vals && s1.msgs.vals[id] == m
            && (s' == s.(counter := s.counter + 1) || s' == s1 ||
                (Enqueue(s1, queue, id, body).Ok? && s' == Enqueue(s1, queue, id, body).value))
  {
    hide NextId, Enqueue;
    PutPop(s.msgs, NextId(s, ms), NewMsg(NextId(s, ms), queue, body, seconds, 0, 0));
  }

  lemma QueueCommandsKept(s: Broker, c: Command)
    requires InPlace(s) && (c.CreateQueueCmd? || c.DeleteQueueCmd?)
    ensures InPlace(Step(s, c))
  {
    hide ValidName, Step;
    QueueCommandShape(s, c);
    var s' := Step(s, c);
    if s' != s {
      KeptThroughQueues(s, s');
    }
  }

  lemma QueueCommandShape(s: Broker, c: Command)
    requires c.CreateQueueCmd? || c.DeleteQueueCmd?
    ensures var s' := Step(s, c);
            && s'.cfg == s.cfg && s'.msgs == s.msgs && s'.dlq == s.dlq
            && (s'.trace == s.trace || (c.CreateQueueCmd? && s'.trace == s.trace + [Created(c.name)]))
            && (forall q :: q in s'.queues && s'.queues[q].items != [] ==> q in s.queues && s'.queues[q] == s.queues[q])
  {
    hide ValidName;
  }

  lemma KeptThroughQueues(s: Broker, s': Broker)
    requires InPlace(s) && s'.msgs == s.msgs && s'.dlq == s.dlq
    requires forall q :: q in s'.queues && s'.queues[q].items != [] ==> q in s.queues && s'.queues[q] == s.queues[q]
    ensures InPlace(s')
  {
    forall q, j | q in s'.queues && j in s'.queues[q].items
      ensures q in s.queues && j in s.queues[q].items
    {
    }
  }

  lemma RegistersKept(s: Broker, c: Command)
    requires InPlace(s) && Enabled(s, c) && (c.PublishCmd? || c.RestoreCmd?)
    ensures InPlace(Step(s, c))
  {
    hide InPlace, Queued, NextId;
    if c.PublishCmd? && c.topicExists {
      RegisterKept(s, s.counter + 1, NewMsg(NextId(s, c.ms), c.topic, c.body, c.seconds, 0, 0));
    }
    if c.RestoreCmd? && c.id !in s.msgs.vals {
      RegisterKept(s, s.counter, NewMsg(c.id, c.target, c.body, c.timestamp, c.ttl, c.ackTimeout));
      assert s.(counter := s.counter) == s;
    }
  }

  lemma OffsetsKept(s: Broker, c: Command)
    requires InPlace(s) && (c.FetchCmd? || c.SetOffsetCmd?)
    ensures InPlace(Step(s, c))
  {
    hide InPlace, OffsetKey, OffsetOf, TopicIds;
    SameKept(s, Step(s, c));
  }

  /** Every command keeps each message in one place, however the dead ones died. */
  lemma StepKept(s: Broker, c: Command)
    requires InPlace(s) && Enabled(s, c)
    ensures InPlace(Step(s, c))
  {
    hide InPlace, Send, Publish, Restore, Consume, Ack, Nack, Sweep, Replay, ReplayAll, AckEach, HandBackEach,
      FetchTopic, CreateQueue, DeleteQueue, SetOffset, NextId;
    match c {
      case ConsumeCmd(queue, consumer, now) => ConsumeKept(s, queue, consumer, now);
      case NackCmd(i, consumer) => NackKept(s, i, consumer);
      case SweepCmd(now) => SweepKept(s, now);
      case HandBackCmd(consumer) => HandBackEachKept(s, s.msgs.keys, consumer);
      case ReplayCmd(i) => ReplayKept(s, i);
      case ReplayAllCmd(target) => ReplayAllKept(s, target);
      case AckCmd(i, consumer) => AckKept(s, i, consumer);
      case AckBatchCmd(ids, consumer) =>
        AckBatchIsAckEach(s, ids, consumer);
        AckEachKept(s, ids, |ids|, consumer);
      case SendCmd(queue, body, ms, seconds) => SendKept(s, queue, body, ms, seconds);
      case PublishCmd(_, _, _, _, _) => RegistersKept(s, c);
      case RestoreCmd(_, _, _, _, _, _) => RegistersKept(s, c);
      case CreateQueueCmd(_, _) => QueueCommandsKept(s, c);
      case DeleteQueueCmd(_) => QueueCommandsKept(s, c);
      case FetchCmd(_, _) => OffsetsKept(s, c);
      case SetOffsetCmd(_, _, _) => OffsetsKept(s, c);
    }
  }

  // ---------- TTL sweeps ----------

  lemma TtlSweepKept(s: Broker, now: real)
    requires InPlace(s) && Harmless(s, TtlSweepAt(now))
    ensures InPlace(TtlSweep(s, now))
  {
    hide TtlSweep, OnePlace, TtlExpired, Aged;
    KeptValid(s);
    TtlSweepKeepsOnePlace(s, now);
    TtlSweepRecords(s, now);
  }

  lemma TtlSweepRecords(s: Broker, now: real)
    requires s.msgs.Valid() && OnePlace(s)
    ensures var s' := TtlSweep(s, now);
            && s'.msgs.Valid() && s'.queues == s.queues
            && s'.msgs.vals.Keys == s.msgs.vals.Keys
            && (forall id :: id in s.msgs.vals ==>
                  || s'.msgs.vals[id] == s.msgs.vals[id]
                  || (s'.msgs.vals[id].status == Dead && s.msgs.vals[id].status != Acked))
  {
    hide CheckTtl;
    SweepExact(s, now);
  }

  // ---------- Runs ----------

  lemma ActKept(s: Broker, a: Action)
    requires InPlace(s) && Harmless(s, a) && (a.Cmd? ==> Enabled(s, a.c))
    ensures InPlace(Act(s, a))
  {
    hide InPlace, Step, TtlSweep, Enabled, Harmless;
    match a {
      case Cmd(c) => StepKept(s, c);
      case TtlSweepAt(now) => TtlSweepKept(s, now);
    }
  }

  ghost predicate AllHarmless(s: Broker, acts: seq<Action>) {
    forall n :: 0 <= n < |acts| ==> Harmless(ActAll(s, acts[..n]), acts[n])
  }

  lemma AllButLast(s: Broker, acts: seq<Action>)
    requires acts != []
    ensures var n := |acts| - 1;
            && (FreshIds(s, acts) ==>
                  FreshIds(s, acts[..n]) && (acts[n].Cmd? ==> Enabled(ActAll(s, acts[..n]), acts[n].c)))
            && (AllHarmless(s, acts) <==>
                  AllHarmless(s, acts[..n]) && Harmless(ActAll(s, acts[..n]), acts[n]))
  {
    hide ActAll, Enabled, Harmless;
    var n := |acts| - 1;
    forall k | 0 <= k < n
      ensures acts[..n][..k] == acts[..k] && acts[..n][k] == acts[k]
    {
    }
    if AllHarmless(s, acts) {
      forall k | 0 <= k < n
        ensures Harmless(ActAll(s, acts[..n][..k]), acts[..n][k])
      {
        assert Harmless(ActAll(s, acts[..k]), acts[k]);
      }
    }
    if AllHarmless(s, acts[..n]) && Harmless(ActAll(s, acts[..n]), acts[n]) {
      forall k | 0 <= k < |acts|
        ensures Harmless(ActAll(s, acts[..k]), acts[k])
      {
        if k < n {
          assert Harmless(ActAll(s, acts[..n][..k]), acts[..n][k]);
        }
      }
    }
    if FreshIds(s, acts) {
      forall k | 0 <= k < n && acts[..n][k].Cmd?
        ensures Enabled(ActAll(s, acts[..n][..k]), acts[..n][k].c)
      {
        assert Enabled(ActAll(s, acts[..k]), acts[k].c);
      }
    }
  }

  /** Through a run whose TTL sweeps find no expired message in a queue, each message stays in one place. */
  lemma {:induction false} RunKept(s: Broker, acts: seq<Action>)
    requires InPlace(s) && FreshIds(s, acts) && AllHarmless(s, acts)
    ensures InPlace(ActAll(s, acts))
  {
    hide InPlace, Act, Harmless, Enabled, FreshIds, AllHarmless;
    if acts != [] {
      var n := |acts| - 1;
      AllButLast(s, acts);
      RunKept(s, acts[..n]);
      ActKept(ActAll(s, acts[..n]), acts[n]);
    }
  }

  ghost predicate OnePlaceThroughout(s: Broker, acts: seq<Action>) {
    forall n :: 0 <= n <= |acts| ==> OnePlace(ActAll(s, acts[..n]))
  }

  /** And exactly then: over a whole run, messages stay in one place throughout if and only if no TTL sweep in it
      finds an expired message in a queue. */
  lemma {:induction false} OnePlaceIffHarmless(s: Broker, acts: seq<Action>)
    requires InPlace(s) && FreshIds(s, acts)
    ensures OnePlaceThroughout(s, acts) <==> AllHarmless(s, acts)
    decreases |acts|
  {
    hide InPlace, Act, Harmless, Enabled, FreshIds, AllHarmless, OnePlace, OnePlaceThroughout;
    if acts == [] {
      NothingDone(s, acts);
    } else {
      var n := |acts| - 1;
      AllButLast(s, acts);
      OnePlaceIffHarmless(s, acts[..n]);
      OnePlaceLast(s, acts);
      if AllHarmless(s, acts[..n]) {
        RunKept(s, acts[..n]);
        LastActDecides(ActAll(s, acts[..n]), acts[n]);
      }
    }
  }

  lemma NothingDone(s: Broker, acts: seq<Action>)
    requires InPlace(s) && acts == []
    ensures OnePlaceThroughout(s, acts) && AllHarmless(s, acts)
  {
    assert acts[..0] == [];
  }

  lemma OnePlaceLast(s: Broker, acts: seq<Action>)
    requires acts != []
    ensures OnePlaceThroughout(s, acts) <==>
            OnePlaceThroughout(s, acts[..|acts| - 1]) && OnePlace(ActAll(s, acts))
  {
    hide ActAll, OnePlace;
    var n := |acts| - 1;
    assert acts[..|acts|] == acts;
    forall k | 0 <= k <= n
      ensures acts[..n][..k] == acts[..k]
    {
    }
    if OnePlaceThroughout(s, acts) {
      forall k | 0 <= k <= n
        ensures OnePlace(ActAll(s, acts[..n][..k]))
      {
        assert OnePlace(ActAll(s, acts[..k]));
      }
      assert OnePlace(ActAll(s, acts[..|acts|]));
    }
    if OnePlaceThroughout(s, acts[..n]) && OnePlace(ActAll(s, acts)) {
      forall k | 0 <= k <= |acts|
        ensures OnePlace(ActAll(s, acts[..k]))
      {
        if k <= n {
          assert OnePlace(ActAll(s, acts[..n][..k]));
        }
      }
    }
  }

  lemma LastActDecides(s: Broker, a: Action)
    requires InPlace(s) && (a.Cmd? ==> Enabled(s, a.c))
    ensures OnePlace(Act(s, a)) <==> Harmless(s, a)
  {
    hide InPlace, Step, TtlSweep, Enabled, OnePlace, Queued, TtlExpired;
    KeptValid(s);
    match a {
      case Cmd(c) =>
        StepKept(s, c);
        KeptValid(Step(s, c));
      case TtlSweepAt(now) => TtlSweepKeepsOnePlace(s, now);
    }
  }

  lemma StartKept(cfg: Config)
    ensures InPlace(Start(cfg))
  {
  }

  /** From the empty broker, TTL sweeps included: after any run whose sweeps find no expired message in a queue, each
      message is exactly one of queued, out for delivery, acknowledged, dead or unplaced; no id is queued twice. */
  lemma ExactlyOnePlaceWithTtl(cfg: Config, acts: seq<Action>, id: string)
    requires FreshIds(Start(cfg), acts) && AllHarmless(Start(cfg), acts)
    ensures var s := ActAll(Start(cfg), acts);
            && OnePlace(s)
            && (id in s.msgs.vals ==>
                  Flag(Queued(s, id)) + Flag(s.msgs.vals[id].status == Delivered) +
                  Flag(s.msgs.vals[id].status == Acked) + Flag(id in s.dlq) +
                  Flag(Unplaced(s, id)) == 1)
  {
    hide ActAll, FreshIds, AllHarmless, InPlace;
    StartKept(cfg);
    RunKept(Start(cfg), acts);
    KeptPlaces(ActAll(Start(cfg), acts), id);
  }

  lemma KeptPlaces(s: Broker, id: string)
    requires InPlace(s)
    ensures OnePlace(s)
    ensures id in s.msgs.vals ==>
              Flag(Queued(s, id)) + Flag(s.msgs.vals[id].status == Delivered) +
              Flag(s.msgs.vals[id].status == Acked) + Flag(id in s.dlq) +
              Flag(Unplaced(s, id)) == 1
  {
    if Queued(s, id) {
      OnlyPendingQueued(s, id);
    }
  }

  lemma ActAllSplit(s: Broker, a: seq<Action>, b: seq<Action>)
    ensures ActAll(s, a + b) == ActAll(ActAll(s, a), b)
    decreases |b|
  {
    hide Act;
    if b == [] {
      assert a + b == a;
    } else {
      var n := |b| - 1;
      assert (a + b)[..|a| + n] == a + b[..n];
      ActAllSplit(s, a, b[..n]);
    }
  }
}
