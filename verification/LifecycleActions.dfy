/** The elementary actions: each keeps the invariant and leaves frozen messages alone. */
module LifecycleActions {

  import opened Common
  import opened Lifecycle
  import opened LifecycleInvariant

  // ---------- Registry ----------

  /** A fresh PENDING message joins the registry outside every queue. */
  lemma RegisterGood(s0: Broker, s: Broker, m: Msg)
    requires Good(s0, s) && m.id !in s.msgs.vals
    requires m == NewMsg(m.id, m.target, m.body, m.timestamp, m.ttl, m.ackTimeout)
    ensures Good(s0, Register(s, m))
    ensures !Queued(Register(s, m), m.id)
  {
    hide Places, Accounts, Homes, Fifo, Follows, Frozen;
    RegisterPlaces(s, m);
    RegisterFollows(s0, s, m);
    RegisterAccounts(s, m);
    RegisterHomes(s, m);
    FifoNote(s.queues, s.trace, Registered(m.id, m.target));
  }

  lemma RegisterPlaces(s: Broker, m: Msg)
    requires Places(s) && m.id !in s.msgs.vals
    requires m == NewMsg(m.id, m.target, m.body, m.timestamp, m.ttl, m.ackTimeout)
    ensures Places(Register(s, m)) && !Queued(Register(s, m), m.id)
  {
    var s' := Register(s, m);
    assert s'.msgs.Valid();
    forall q | q in s'.queues
      ensures QueueOk(s'.cfg, s'.msgs.vals, q, s'.queues[q]) && m.id !in s'.queues[q].items
    {
      assert QueueOk(s.cfg, s.msgs.vals, q, s.queues[q]);
    }
  }

  lemma RegisterFollows(s0: Broker, s: Broker, m: Msg)
    requires Follows(s0, s) && m.id !in s.msgs.vals
    ensures Follows(s0, Register(s, m))
  {
    hide Count, Home;
    var s' := Register(s, m);
    forall j | Frozen(s0, j)
      ensures SameMessage(s0, s', j)
    {
      assert SameMessage(s0, s, j);
      assert Queued(s', j) ==> Queued(s, j);
      CountNote(s.trace, Registered(m.id, m.target), Delivery(j));
    }
  }

  lemma RegisterAccounts(s: Broker, m: Msg)
    requires Accounts(s.cfg, s.msgs.vals, s.trace) && m.id !in s.msgs.vals
    requires m.retryCount == 0 && m.status == Pending
    ensures Accounts(s.cfg, s.msgs.vals[m.id := m], s.trace + [Registered(m.id, m.target)])
  {
    hide Count;
    var t := s.trace + [Registered(m.id, m.target)];
    AccountsNote(s.cfg, s.msgs.vals, s.trace, Registered(m.id, m.target));
    assert Unused(t, m.id);
    forall j | j in s.msgs.vals && j != m.id
      ensures Balanced(s.cfg, t, j, s.msgs.vals[j])
    {
    }
  }

  lemma RegisterHomes(s: Broker, m: Msg)
    requires Homes(s.msgs.vals, s.trace) && m.id !in s.msgs.vals && m.status != Dead
    ensures Homes(s.msgs.vals[m.id := m], s.trace + [Registered(m.id, m.target)])
  {
    var t := s.trace + [Registered(m.id, m.target)];
    assert Registered(m.id, m.target) in t by {
      assert t[|s.trace|] == Registered(m.id, m.target);
    }
    assert forall j, h :: Registered(j, h) in t ==> Registered(j, h) in s.trace || (j == m.id && h == m.target);
  }

  // ---------- Queues ----------

  /** A loose PENDING message enters the queue it targets. */
  lemma EnqueueGood(s0: Broker, s: Broker, id: string)
    requires Good(s0, s) && id in s.msgs.vals && !Frozen(s0, id)
    requires s.msgs.vals[id].status == Pending && !Queued(s, id)
    requires Enqueue(s, s.msgs.vals[id].target, id, s.msgs.vals[id].body).Ok?
    ensures Good(s0, Enqueue(s, s.msgs.vals[id].target, id, s.msgs.vals[id].body).value)
  {
    hide Places, Accounts, Homes, Fifo, Follows, Frozen, CheckBody;
    var name := s.msgs.vals[id].target;
    var e := Enqueued(name, id);
    AccountsNote(s.cfg, s.msgs.vals, s.trace, e);
    HomesNote(s.msgs.vals, s.trace, e);
    EnqueueFifo(s.queues, s.trace, name, id);
    EnqueuePlaces(s, id);
    EnqueueFollows(s0, s, name, id);
  }

  lemma EnqueueFifo(queues: map<string, Queue>, trace: seq<Event>, name: string, id: string)
    requires Fifo(queues, trace) && name in queues
    ensures var q := queues[name];
            Fifo(queues[name := q.(items := q.items + [id])], trace + [Enqueued(name, id)])
  {
    hide Joined, Left;
    forall q | q in queues
      ensures Joined(trace + [Enqueued(name, id)], q) ==
              Left(trace + [Enqueued(name, id)], q) + queues[q].items + (if q == name then [id] else [])
    {
      OrderNote(trace, Enqueued(name, id), q);
    }
  }

  lemma EnqueuePlaces(s: Broker, id: string)
    requires Places(s) && id in s.msgs.vals && s.msgs.vals[id].status == Pending && !Queued(s, id)
    requires Enqueue(s, s.msgs.vals[id].target, id, s.msgs.vals[id].body).Ok?
    ensures Places(Enqueue(s, s.msgs.vals[id].target, id, s.msgs.vals[id].body).value)
  {
    hide CheckBody;
    var name := s.msgs.vals[id].target;
    var s' := Enqueue(s, name, id, s.msgs.vals[id].body).value;
    forall q | q in s'.queues
      ensures QueueOk(s'.cfg, s'.msgs.vals, q, s'.queues[q])
    {
      assert QueueOk(s.cfg, s.msgs.vals, q, s.queues[q]);
      if q == name {
        assert id !in s.queues[name].items;
        NoDupSnoc(s.queues[name].items, id);
      }
    }
  }

  lemma EnqueueFollows(s0: Broker, s: Broker, name: string, id: string)
    requires Follows(s0, s) && !Frozen(s0, id) && name in s.queues
    ensures var q := s.queues[name];
            Follows(s0, Note(s.(queues := s.queues[name := q.(items := q.items + [id])]), Enqueued(name, id)))
  {
    hide Count, Home;
    var q := s.queues[name];
    var s' := Note(s.(queues := s.queues[name := q.(items := q.items + [id])]), Enqueued(name, id));
    forall j | Frozen(s0, j)
      ensures SameMessage(s0, s', j)
    {
      assert SameMessage(s0, s, j);
      QueuedAfterEnqueue(s, name, id, j);
      CountNote(s.trace, Enqueued(name, id), Delivery(j));
    }
  }

  lemma QueuedAfterEnqueue(s: Broker, name: string, id: string, j: string)
    requires name in s.queues
    ensures var q := s.queues[name];
            Queued(s.(queues := s.queues[name := q.(items := q.items + [id])]), j) <==> Queued(s, j) || j == id
  {
    var q := s.queues[name];
    var s' := s.(queues := s.queues[name := q.(items := q.items + [id])]);
    if Queued(s, j) {
      var p :| p in s.queues && j in s.queues[p].items;
      assert p in s'.queues && j in s'.queues[p].items;
    }
    if j == id {
      assert s'.queues[name].items[|q.items|] == id;
      assert name in s'.queues && j in s'.queues[name].items;
    }
  }

  /** The head of a queue leaves it. */
  lemma DropHeadGood(s0: Broker, s: Broker, name: string)
    requires Good(s0, s) && name in s.queues && s.queues[name].items != []
    requires !Frozen(s0, s.queues[name].items[0])
    ensures Good(s0, DropHead(s, name)) && !Queued(DropHead(s, name), s.queues[name].items[0])
  {
    hide Places, Accounts, Homes, Fifo, Follows, Frozen;
    var e := Dequeued(name, s.queues[name].items[0]);
    AccountsNote(s.cfg, s.msgs.vals, s.trace, e);
    HomesNote(s.msgs.vals, s.trace, e);
    DropHeadFifo(s.queues, s.trace, name);
    DropHeadPlaces(s, name);
    DropHeadFollows(s0, s, name);
  }

  lemma DropHeadFifo(queues: map<string, Queue>, trace: seq<Event>, name: string)
    requires Fifo(queues, trace) && name in queues && queues[name].items != []
    ensures var q := queues[name];
            Fifo(queues[name := q.(items := q.items[1..])], trace + [Dequeued(name, q.items[0])])
  {
    hide Joined, Left;
    var q0 := queues[name];
    var e := Dequeued(name, q0.items[0]);
    assert q0.items == [q0.items[0]] + q0.items[1..];
    forall q | q in queues
      ensures Joined(trace + [e], q) ==
              Left(trace + [e], q) + (if q == name then q0.items[1..] else queues[q].items)
    {
      OrderNote(trace, e, q);
      assert Left(trace, name) + q0.items == Left(trace, name) + [q0.items[0]] + q0.items[1..];
    }
  }

  lemma DropHeadPlaces(s: Broker, name: string)
    requires Places(s) && name in s.queues && s.queues[name].items != []
    ensures Places(DropHead(s, name)) && !Queued(DropHead(s, name), s.queues[name].items[0])
  {
    var items := s.queues[name].items;
    var s' := DropHead(s, name);
    assert items == [items[0]] + items[1..];
    forall q | q in s'.queues
      ensures QueueOk(s'.cfg, s'.msgs.vals, q, s'.queues[q])
      ensures items[0] !in s'.queues[q].items
    {
      assert QueueOk(s.cfg, s.msgs.vals, q, s.queues[q]);
      assert QueueOk(s.cfg, s.msgs.vals, name, s.queues[name]);
      assert items[0] in items;
    }
  }

  lemma DropHeadFollows(s0: Broker, s: Broker, name: string)
    requires Follows(s0, s) && name in s.queues && s.queues[name].items != []
    ensures Follows(s0, DropHead(s, name))
  {
    hide Count, Home;
    var s' := DropHead(s, name);
    forall j | Frozen(s0, j)
      ensures SameMessage(s0, s', j)
    {
      assert SameMessage(s0, s, j);
      assert Queued(s', j) ==> Queued(s, j);
      CountNote(s.trace, Dequeued(name, s.queues[name].items[0]), Delivery(j));
    }
  }

  lemma CreateQueueGood(s0: Broker, s: Broker, name: string, size: Option<int>)
    requires Good(s0, s)
    ensures Good(s0, CreateQueue(s, name, size).0)
  {
    hide Accounts, Homes, Fifo, ValidName;
    var (s', r) := CreateQueue(s, name, size);
    if r == Done {
      AccountsNote(s.cfg, s.msgs.vals, s.trace, Created(name));
      HomesNote(s.msgs.vals, s.trace, Created(name));
      CreateFifo(s.queues, s.trace, name, s'.queues[name].maxSize);
      assert Places(s');
      EmptyQueueFollows(s0, s, s');
    }
  }

  lemma CreateFifo(queues: map<string, Queue>, trace: seq<Event>, name: string, maxSize: int)
    requires Fifo(queues, trace)
    ensures Fifo(queues[name := Queue([], maxSize)], trace + [Created(name)])
  {
    hide Joined, Left;
    forall q | q in queues || q == name
      ensures Joined(trace + [Created(name)], q) ==
              Left(trace + [Created(name)], q) + (if q == name then [] else queues[q].items)
    {
      OrderNote(trace, Created(name), q);
    }
  }

  /** Making or dropping an empty queue touches no message. */
  lemma EmptyQueueFollows(s0: Broker, s: Broker, s': Broker)
    requires Follows(s0, s)
    requires s'.cfg == s.cfg && s'.msgs == s.msgs && s'.counter == s.counter
    requires s'.trace == s.trace || exists name :: s'.trace == s.trace + [Created(name)]
    requires forall q :: q in s'.queues && s'.queues[q].items != [] ==> q in s.queues && s.queues[q] == s'.queues[q]
    ensures Follows(s0, s')
  {
    hide Count, Home;
    forall j | Frozen(s0, j)
      ensures SameMessage(s0, s', j)
    {
      assert SameMessage(s0, s, j);
      assert Queued(s', j) ==> Queued(s, j);
      if s'.trace != s.trace {
        var name :| s'.trace == s.trace + [Created(name)];
        CountNote(s.trace, Created(name), Delivery(j));
      }
    }
  }

  lemma DeleteQueueGood(s0: Broker, s: Broker, name: string)
    requires Good(s0, s)
    ensures Good(s0, DeleteQueue(s, name).0)
  {
    hide Accounts, Homes, Joined, Left;
    var s' := DeleteQueue(s, name).0;
    assert Places(s');
    EmptyQueueFollows(s0, s, s');
  }

  // ---------- Status changes ----------

  /** What the invariant says about one message. */
  lemma Facts(s0: Broker, s: Broker, id: string)
    requires Good(s0, s) && id in s.msgs.vals
    ensures s.msgs.vals[id].id == id && MsgOk(s.cfg, s.msgs.vals[id]) && s.cfg.maxRetries >= 0
    ensures Balanced(s.cfg, s.trace, id, s.msgs.vals[id])
    ensures NoDup(s.dlq) && (id in s.dlq <==> s.msgs.vals[id].status == Dead)
    ensures s.msgs.vals[id].status != Pending ==> !Queued(s, id)
  {
    hide Homes, Fifo, Follows, Count;
    if s.msgs.vals[id].status != Pending {
      NotQueuedUnlessPending(s, id);
    }
  }

  lemma DlqSame(s: Broker, id: string, m: Msg)
    requires NoDup(s.dlq) && (id in s.dlq <==> m.status == Dead)
    ensures DlqFollows(s, id, m, s.dlq)
  {
  }

  lemma DeliverGood(s0: Broker, s: Broker, id: string, consumer: string, now: real)
    requires Good(s0, s) && id in s.msgs.vals && !Frozen(s0, id)
    requires s.msgs.vals[id].status == Pending && !Queued(s, id) && CheckBody(s.cfg, s.msgs.vals[id].body).Ok?
    ensures Good(s0, Deliver(s, id, consumer, now))
  {
    hide Good, Count, Frozen, CheckBody, Queued, DlqFollows;
    var m' := s.msgs.vals[id].(status := Delivered, deliveredTo := consumer, deliverTime := now);
    Facts(s0, s, id);
    Tallies(s.trace, Delivery(id), id);
    DlqSame(s, id, m');
    ChangeGood(s0, s, id, m', Delivery(id), s.dlq);
  }

  /** What one event does to the three counts of its own message. */
  lemma Tallies(trace: seq<Event>, e: Event, id: string)
    ensures Count(trace + [e], Delivery(id)) == Count(trace, Delivery(id)) + Flag(e == Delivery(id))
    ensures Count(trace + [e], Replayed(id)) == Count(trace, Replayed(id)) + Flag(e == Replayed(id))
    ensures Count(trace + [e], HandedBack(id)) == Count(trace, HandedBack(id)) + Flag(e == HandedBack(id))
  {
  }

  lemma NotQueuedUnlessPending(s: Broker, id: string)
    requires Places(s) && id in s.msgs.vals && s.msgs.vals[id].status != Pending
    ensures !Queued(s, id)
  {
    assert forall q :: q in s.queues ==> QueueOk(s.cfg, s.msgs.vals, q, s.queues[q]);
  }

  lemma ConfirmGood(s0: Broker, s: Broker, id: string)
    requires Good(s0, s) && id in s.msgs.vals
    requires s.msgs.vals[id].status == Delivered ==> !Frozen(s0, id)
    requires s.msgs.vals[id].status == Delivered || s.msgs.vals[id].status == Acked
    ensures Good(s0, Confirm(s, id))
  {
    hide Good, Count, Frozen, CheckBody, Queued, DlqFollows;
    var m := s.msgs.vals[id];
    if m.status == Delivered {
      var m' := m.(status := Acked);
      Facts(s0, s, id);
      Tallies(s.trace, Confirmed(id), id);
      DlqSame(s, id, m');
      ChangeGood(s0, s, id, m', Confirmed(id), s.dlq);
    }
  }

  lemma HandBackOneGood(s0: Broker, s: Broker, id: string)
    requires Good(s0, s) && id in s.msgs.vals && !Frozen(s0, id)
    requires s.msgs.vals[id].status == Delivered
    ensures Good(s0, HandBackOne(s, id)) && !Queued(HandBackOne(s, id), id)
  {
    hide Good, Count, Frozen, CheckBody, Queued, DlqFollows;
    var m' := Release(s.msgs.vals[id]);
    Facts(s0, s, id);
    Tallies(s.trace, HandedBack(id), id);
    DlqSame(s, id, m');
    ChangeGood(s0, s, id, m', HandedBack(id), s.dlq);
  }

  lemma FailGood(s0: Broker, s: Broker, id: string)
    requires Good(s0, s) && id in s.msgs.vals && !Frozen(s0, id)
    requires s.msgs.vals[id].status == Delivered
    ensures Good(s0, Fail(s, id)) && !Queued(Fail(s, id), id)
    ensures id in Fail(s, id).msgs.vals
    ensures Fail(s, id).msgs.vals[id].status ==
            (if s.msgs.vals[id].retryCount < s.cfg.maxRetries then Pending else Dead)
    ensures Fail(s, id).queues == s.queues
  {
    hide Good, Queued, Frozen;
    if s.msgs.vals[id].retryCount < s.cfg.maxRetries {
      FailRetryGood(s0, s, id);
    } else {
      FailBuryGood(s0, s, id);
    }
  }

  lemma FailRetryGood(s0: Broker, s: Broker, id: string)
    requires Good(s0, s) && id in s.msgs.vals && !Frozen(s0, id)
    requires s.msgs.vals[id].status == Delivered && s.msgs.vals[id].retryCount < s.cfg.maxRetries
    ensures Good(s0, Fail(s, id)) && !Queued(Fail(s, id), id)
  {
    hide Good, Count, Frozen, CheckBody, Queued, DlqFollows;
    var m := s.msgs.vals[id];
    var m' := Release(m.(retryCount := m.retryCount + 1));
    Facts(s0, s, id);
    Tallies(s.trace, Failed(id), id);
    DlqSame(s, id, m');
    ChangeGood(s0, s, id, m', Failed(id), s.dlq);
  }

  lemma FailBuryGood(s0: Broker, s: Broker, id: string)
    requires Good(s0, s) && id in s.msgs.vals && !Frozen(s0, id)
    requires s.msgs.vals[id].status == Delivered && s.msgs.vals[id].retryCount >= s.cfg.maxRetries
    ensures Good(s0, Fail(s, id)) && !Queued(Fail(s, id), id)
  {
    hide Good, Count, Frozen, CheckBody, Queued;
    var m := s.msgs.vals[id];
    var m2 := m.(retryCount := m.retryCount + 1, originalTarget := m.target, target := DLQ, status := Dead);
    Facts(s0, s, id);
    Tallies(s.trace, Failed(id), id);
    NoDupSnoc(s.dlq, id);
    ChangeGood(s0, s, id, m2, Failed(id), s.dlq + [id]);
    NoteGood(s0, Change(s, id, m2, Failed(id), s.dlq + [id]), Buried(id));
    FailBuries(s, id, m2);
  }

  lemma FailBuries(s: Broker, id: string, m2: Msg)
    requires id in s.msgs.vals && id !in s.dlq
    requires s.msgs.vals[id].retryCount >= s.cfg.maxRetries
    requires var m := s.msgs.vals[id];
             m2 == m.(retryCount := m.retryCount + 1, originalTarget := m.target, target := DLQ, status := Dead)
    ensures Fail(s, id) == Note(Change(s, id, m2, Failed(id), s.dlq + [id]), Buried(id))
    ensures Queued(Fail(s, id), id) ==> Queued(Change(s, id, m2, Failed(id), s.dlq + [id]), id)
  {
    var m1 := s.msgs.vals[id].(retryCount := s.msgs.vals[id].retryCount + 1);
    assert s.msgs.vals[id := m1][id := m2] == s.msgs.vals[id := m2];
  }

  lemma UnburyGood(s0: Broker, s: Broker, id: string)
    requires Good(s0, s) && id in s.msgs.vals && !Frozen(s0, id)
    requires s.msgs.vals[id].status == Dead
    ensures Good(s0, Unbury(s, id)) && !Queued(Unbury(s, id), id)
  {
    hide Good, Count, Frozen, CheckBody, Queued;
    var m := s.msgs.vals[id];
    var m1 := Release(m).(target := m.originalTarget, originalTarget := "", retryCount := 0);
    Facts(s0, s, id);
    Tallies(s.trace, Replayed(id), id);
    var k := s.cfg.maxRetries + 1;
    var c := Count(s.trace, Replayed(id));
    assert k * (c + 1) == k * c + k;
    RemoveNoDup(s.dlq, id);
    ChangeGood(s0, s, id, m1, Replayed(id), Remove(s.dlq, id));
  }
}
