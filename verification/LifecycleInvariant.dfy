/** The invariant that spans registry, queues, dead-letter store and trace, and what each elementary action does
    to it. */
module LifecycleInvariant {

  import opened Common
  import opened Lifecycle

  // ---------- Places ----------

  ghost predicate Queued(s: Broker, id: string) {
    exists q :: q in s.queues && id in s.queues[q].items
  }

  /** PENDING outside every queue. */
  ghost predicate Unplaced(s: Broker, id: string) {
    id in s.msgs.vals && s.msgs.vals[id].status == Pending && !Queued(s, id)
  }

  ghost predicate MsgOk(cfg: Config, m: Msg) {
    && m.status != Expired
    && 0 <= m.retryCount
    && (if m.status == Dead then m.retryCount == cfg.maxRetries + 1 && m.target == DLQ
        else m.retryCount <= cfg.maxRetries)
    && (if m.status == Pending then m.deliveredTo == "" && m.deliverTime == 0.0 else CheckBody(cfg, m.body).Ok?)
  }

  /** A queue holds each id once, only PENDING messages with an acceptable body that target it, and no more than
      it has room for. */
  ghost predicate QueueOk(cfg: Config, vals: map<string, Msg>, name: string, q: Queue) {
    && NoDup(q.items)
    && (forall id :: id in q.items ==>
          && id in vals && vals[id].status == Pending && vals[id].target == name
          && CheckBody(cfg, vals[id].body).Ok?)
    && (q.items != [] ==> |q.items| <= q.maxSize)
  }

  ghost predicate Places(s: Broker) {
    && s.cfg.maxRetries >= 0
    && s.msgs.Valid()
    && (forall id :: id in s.msgs.vals ==> s.msgs.vals[id].id == id && MsgOk(s.cfg, s.msgs.vals[id]))
    && (forall q :: q in s.queues ==> QueueOk(s.cfg, s.msgs.vals, q, s.queues[q]))
    && NoDup(s.dlq)
    && (forall id :: id in s.dlq <==> id in s.msgs.vals && s.msgs.vals[id].status == Dead)
  }

  // ---------- Accounts ----------

  function Count(trace: seq<Event>, e: Event): nat {
    multiset(trace)[e]
  }

  function Flag(b: bool): nat {
    if b then 1 else 0
  }

  /** Deliveries are accounted for by retry rounds, current retries, hand-backs and the present status. */
  ghost predicate Balanced(cfg: Config, trace: seq<Event>, id: string, m: Msg) {
    Count(trace, Delivery(id)) ==
    (cfg.maxRetries + 1) * Count(trace, Replayed(id)) + m.retryCount + Count(trace, HandedBack(id)) +
    Flag(m.status == Acked) + Flag(m.status == Delivered)
  }

  ghost predicate Unused(trace: seq<Event>, id: string) {
    Count(trace, Delivery(id)) == Count(trace, Replayed(id)) == Count(trace, HandedBack(id)) == 0
  }

  ghost predicate Accounts(cfg: Config, vals: map<string, Msg>, trace: seq<Event>) {
    && (forall id :: id in vals ==> Balanced(cfg, trace, id, vals[id]))
    && (forall id :: id !in vals ==> Unused(trace, id))
  }

  // ---------- Homes ----------

  function Home(m: Msg): string {
    if m.status == Dead then m.originalTarget else m.target
  }

  /** Every message still belongs to the target it was registered with. */
  ghost predicate Homes(vals: map<string, Msg>, trace: seq<Event>) {
    && (forall id :: id in vals ==> Registered(id, Home(vals[id])) in trace)
    && (forall id, t :: Registered(id, t) in trace ==> id in vals && Home(vals[id]) == t)
  }

  // ---------- Order ----------

  /** The ids that joined queue `q` since it was last created, in order. */
  function Joined(trace: seq<Event>, q: string): seq<string> {
    if trace == [] then []
    else
      var n := |trace| - 1;
      match trace[n]
      case Created(q') => if q' == q then [] else Joined(trace[..n], q)
      case Enqueued(q', id) => if q' == q then Joined(trace[..n], q) + [id] else Joined(trace[..n], q)
      case _ => Joined(trace[..n], q)
  }

  /** The ids that left it from the front since then. */
  function Left(trace: seq<Event>, q: string): seq<string> {
    if trace == [] then []
    else
      var n := |trace| - 1;
      match trace[n]
      case Created(q') => if q' == q then [] else Left(trace[..n], q)
      case Dequeued(q', id) => if q' == q then Left(trace[..n], q) + [id] else Left(trace[..n], q)
      case _ => Left(trace[..n], q)
  }

  ghost predicate Fifo(queues: map<string, Queue>, trace: seq<Event>) {
    forall q :: q in queues ==> Joined(trace, q) == Left(trace, q) + queues[q].items
  }

  // ---------- All of it ----------

  ghost predicate Inv(s: Broker) {
    && Places(s)
    && Accounts(s.cfg, s.msgs.vals, s.trace)
    && Homes(s.msgs.vals, s.trace)
    && Fifo(s.queues, s.trace)
  }

  /** Acknowledged, or PENDING outside every queue: out of reach of commands and ACK-timeout sweeps. */
  ghost predicate Frozen(s: Broker, id: string) {
    && id in s.msgs.vals
    && (s.msgs.vals[id].status == Acked || Unplaced(s, id))
  }

  ghost predicate SameMessage(s0: Broker, s: Broker, id: string)
    requires id in s0.msgs.vals
  {
    && id in s.msgs.vals
    && s.msgs.vals[id] == s0.msgs.vals[id]
    && !Queued(s, id)
    && Count(s.trace, Delivery(id)) == Count(s0.trace, Delivery(id))
  }

  /** From `s0` to `s` nothing is forgotten, nothing changes home, and what was frozen is untouched. */
  ghost predicate Follows(s0: Broker, s: Broker) {
    && s.cfg == s0.cfg
    && s0.trace <= s.trace
    && s0.counter <= s.counter
    && (forall id :: id in s0.msgs.vals ==>
          && id in s.msgs.vals
          && Home(s.msgs.vals[id]) == Home(s0.msgs.vals[id])
          && s.msgs.vals[id].body == s0.msgs.vals[id].body)
    && (forall id :: Frozen(s0, id) ==> SameMessage(s0, s, id))
  }

  /** `s` is a good state on the way from `s0`. */
  ghost predicate Good(s0: Broker, s: Broker) {
    Inv(s) && Follows(s0, s)
  }

  lemma FrozenNotQueued(s: Broker, id: string)
    requires Inv(s) && Frozen(s, id)
    ensures !Queued(s, id) && id !in s.dlq
  {
  }

  lemma GoodStart(s: Broker)
    requires Inv(s)
    ensures Good(s, s)
  {
    forall id | Frozen(s, id)
      ensures SameMessage(s, s, id)
    {
      FrozenNotQueued(s, id);
    }
  }

  lemma GoodThen(s0: Broker, s1: Broker, s2: Broker)
    requires Good(s0, s1) && Good(s1, s2)
    ensures Good(s0, s2)
  {
    forall id | Frozen(s0, id)
      ensures SameMessage(s0, s2, id)
    {
      assert SameMessage(s0, s1, id);
      assert Frozen(s1, id);
      assert SameMessage(s1, s2, id);
    }
  }

  lemma SameQueuesSameQueued(s: Broker, s': Broker, j: string)
    requires s'.queues == s.queues
    ensures Queued(s', j) <==> Queued(s, j)
  {
    if Queued(s, j) {
      var q :| q in s.queues && j in s.queues[q].items;
      assert q in s'.queues && j in s'.queues[q].items;
    }
  }

  // ---------- Recording an event ----------

  lemma CountNote(trace: seq<Event>, e: Event, f: Event)
    ensures Count(trace + [e], f) == Count(trace, f) + Flag(e == f)
  {
  }

  lemma OrderNote(trace: seq<Event>, e: Event, q: string)
    ensures Joined(trace + [e], q) ==
            (if e == Created(q) then [] else if e.Enqueued? && e.queue == q then Joined(trace, q) + [e.id]
             else Joined(trace, q))
    ensures Left(trace + [e], q) ==
            (if e == Created(q) then [] else if e.Dequeued? && e.queue == q then Left(trace, q) + [e.id]
             else Left(trace, q))
  {
    assert (trace + [e])[..|trace|] == trace;
  }

  /** An event that moves no queue entry keeps the order facts. */
  lemma FifoNote(queues: map<string, Queue>, trace: seq<Event>, e: Event)
    requires Fifo(queues, trace) && !e.Created? && !e.Enqueued? && !e.Dequeued?
    ensures Fifo(queues, trace + [e])
  {
    hide Joined, Left;
    forall q | q in queues
      ensures Joined(trace + [e], q) == Left(trace + [e], q) + queues[q].items
    {
      OrderNote(trace, e, q);
    }
  }

  /** An event that is neither a delivery, a replay nor a hand-back keeps the accounts. */
  lemma AccountsNote(cfg: Config, vals: map<string, Msg>, trace: seq<Event>, e: Event)
    requires Accounts(cfg, vals, trace) && !e.Delivery? && !e.Replayed? && !e.HandedBack?
    ensures Accounts(cfg, vals, trace + [e])
  {
    hide Count;
    forall id
      ensures Count(trace + [e], Delivery(id)) == Count(trace, Delivery(id))
      ensures Count(trace + [e], Replayed(id)) == Count(trace, Replayed(id))
      ensures Count(trace + [e], HandedBack(id)) == Count(trace, HandedBack(id))
    {
      CountNote(trace, e, Delivery(id));
      CountNote(trace, e, Replayed(id));
      CountNote(trace, e, HandedBack(id));
    }
    forall id | id in vals
      ensures Balanced(cfg, trace + [e], id, vals[id])
    {
      assert Balanced(cfg, trace, id, vals[id]);
    }
    forall id | id !in vals
      ensures Unused(trace + [e], id)
    {
      assert Unused(trace, id);
    }
  }

  /** One message changes and one event about it is recorded: only its own account is at stake. */
  lemma AccountsChange(cfg: Config, vals: map<string, Msg>, trace: seq<Event>, id: string, m: Msg, e: Event)
    requires Accounts(cfg, vals, trace) && id in vals
    requires e == Delivery(id) || e == Replayed(id) || e == HandedBack(id) || e == Failed(id) || e == Confirmed(id)
    requires Balanced(cfg, trace + [e], id, m)
    ensures Accounts(cfg, vals[id := m], trace + [e])
  {
    hide Count;
    forall j | j != id
      ensures Count(trace + [e], Delivery(j)) == Count(trace, Delivery(j))
      ensures Count(trace + [e], Replayed(j)) == Count(trace, Replayed(j))
      ensures Count(trace + [e], HandedBack(j)) == Count(trace, HandedBack(j))
    {
      CountNote(trace, e, Delivery(j));
      CountNote(trace, e, Replayed(j));
      CountNote(trace, e, HandedBack(j));
    }
    forall j | j in vals && j != id
      ensures Balanced(cfg, trace + [e], j, vals[j])
    {
      assert Balanced(cfg, trace, j, vals[j]);
    }
    forall j | j !in vals
      ensures Unused(trace + [e], j)
    {
      assert Unused(trace, j);
    }
  }

  lemma HomesNote(vals: map<string, Msg>, trace: seq<Event>, e: Event)
    requires Homes(vals, trace) && !e.Registered?
    ensures Homes(vals, trace + [e])
  {
    assert forall id, t :: Registered(id, t) in trace + [e] <==> Registered(id, t) in trace;
  }

  lemma HomesChange(vals: map<string, Msg>, trace: seq<Event>, id: string, m: Msg, e: Event)
    requires Homes(vals, trace) && id in vals && Home(m) == Home(vals[id]) && !e.Registered?
    ensures Homes(vals[id := m], trace + [e])
  {
    HomesNote(vals, trace, e);
  }

  // ---------- Changing one message ----------

  /** The common shape of every status change: one message, one event, perhaps the dead-letter list. */
  function Change(s: Broker, id: string, m: Msg, e: Event, dlq: seq<string>): Broker
    requires id in s.msgs.vals
  {
    Note(SetMsg(s, id, m), e).(dlq := dlq)
  }

  /** `dlq` is `s.dlq` with `id` in it exactly when the message is now dead. */
  ghost predicate DlqFollows(s: Broker, id: string, m: Msg, dlq: seq<string>) {
    && NoDup(dlq)
    && (forall j :: j in dlq <==> (if j == id then m.status == Dead else j in s.dlq))
  }

  lemma ChangePlaces(s: Broker, id: string, m: Msg, e: Event, dlq: seq<string>)
    requires Places(s) && id in s.msgs.vals && !Queued(s, id)
    requires m.id == id && MsgOk(s.cfg, m) && DlqFollows(s, id, m, dlq)
    ensures Places(Change(s, id, m, e, dlq))
  {
    var s' := Change(s, id, m, e, dlq);
    forall q | q in s'.queues
      ensures QueueOk(s'.cfg, s'.msgs.vals, q, s'.queues[q])
    {
      assert QueueOk(s.cfg, s.msgs.vals, q, s.queues[q]);
      assert id !in s.queues[q].items;
    }
  }

  lemma ChangeFollows(s0: Broker, s: Broker, id: string, m: Msg, e: Event, dlq: seq<string>)
    requires Follows(s0, s) && id in s.msgs.vals && !Frozen(s0, id)
    requires Home(m) == Home(s.msgs.vals[id]) && m.body == s.msgs.vals[id].body
    requires e.Delivery? ==> e.id == id
    ensures Follows(s0, Change(s, id, m, e, dlq))
  {
    hide Count, Home;
    var s' := Change(s, id, m, e, dlq);
    forall j | Frozen(s0, j)
      ensures SameMessage(s0, s', j)
    {
      assert SameMessage(s0, s, j);
      assert Queued(s', j) ==> Queued(s, j);
      CountNote(s.trace, e, Delivery(j));
    }
  }

  /** A status change that settles its own account keeps everything. */
  lemma ChangeGood(s0: Broker, s: Broker, id: string, m: Msg, e: Event, dlq: seq<string>)
    requires Good(s0, s) && id in s.msgs.vals && !Queued(s, id) && !Frozen(s0, id)
    requires m.id == id && MsgOk(s.cfg, m) && DlqFollows(s, id, m, dlq)
    requires Home(m) == Home(s.msgs.vals[id]) && m.body == s.msgs.vals[id].body
    requires e == Delivery(id) || e == Replayed(id) || e == HandedBack(id) || e == Failed(id) || e == Confirmed(id)
    requires Balanced(s.cfg, s.trace + [e], id, m)
    ensures Good(s0, Change(s, id, m, e, dlq))
    ensures !Queued(Change(s, id, m, e, dlq), id)
  {
    hide Places, Accounts, Homes, Fifo, Follows, Balanced, Frozen, DlqFollows, MsgOk, Home;
    ChangePlaces(s, id, m, e, dlq);
    ChangeFollows(s0, s, id, m, e, dlq);
    AccountsChange(s.cfg, s.msgs.vals, s.trace, id, m, e);
    HomesChange(s.msgs.vals, s.trace, id, m, e);
    FifoNote(s.queues, s.trace, e);
  }

  /** An event nobody counts. */
  lemma NoteGood(s0: Broker, s: Broker, e: Event)
    requires Good(s0, s) && e.Buried?
    ensures Good(s0, Note(s, e))
  {
    hide Accounts, Homes, Fifo, Home;
    AccountsNote(s.cfg, s.msgs.vals, s.trace, e);
    HomesNote(s.msgs.vals, s.trace, e);
    FifoNote(s.queues, s.trace, e);
    var s' := Note(s, e);
    assert Places(s');
    forall j | Frozen(s0, j)
      ensures SameMessage(s0, s', j)
    {
      assert SameMessage(s0, s, j);
      assert Queued(s', j) ==> Queued(s, j);
    }
  }
}
