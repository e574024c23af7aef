/** The broker of `src/server.py` with its router, queue manager and dead-letter store, as a value. Each command
    and each background sweep is one function from state to state; `trace` records what happened, in order. */
module Lifecycle {

  import opened Common
  import opened Dicts
  import opened MessageIds
  import opened Order

  datatype Status = Pending | Delivered | Acked | Dead | Expired

  const DLQ := "DLQ"

  datatype Msg = Msg(
    id: string,
    target: string,
    body: string,
    timestamp: int,
    ttl: int,
    ackTimeout: int,
    status: Status,
    retryCount: int,
    deliveredTo: string,
    deliverTime: real,
    originalTarget: string)

  /** A deque of message ids and its capacity. */
  datatype Queue = Queue(items: seq<string>, maxSize: int)

  datatype Config = Config(
    maxRetries: int,
    defaultAckTimeout: real,
    defaultTtl: int,
    defaultMaxSize: int,
    maxMessageBytes: int)

  datatype Event =
    | Registered(id: string, target: string)
    | Enqueued(queue: string, id: string)
    | Dequeued(queue: string, id: string)
    | Delivery(id: string)
    | Confirmed(id: string)
    | Failed(id: string)
    | Buried(id: string)
    | HandedBack(id: string)
    | Replayed(id: string)
    | Created(queue: string)

  datatype ErrorCode =
    | QueueNotFound | QueueFull | EmptyMessage | MessageTooLarge | InvalidName | QueueExists | QueueNotEmpty
    | TopicNotFound | MessageNotFound | NotYourMessage | InvalidOffset | InternalError

  datatype Reply =
    | Done
    | NewId(id: string)
    | Got(id: string, body: string)
    | Nothing
    | PartialAck(failed: seq<string>)
    | Replays(count: nat)
    | Error(code: ErrorCode)

  datatype Broker = Broker(
    cfg: Config,
    msgs: Dict<string, Msg>,
    queues: map<string, Queue>,
    dlq: seq<string>,
    offsets: map<string, nat>,
    counter: nat,
    trace: seq<Event>)

  function Start(cfg: Config): Broker {
    Broker(cfg, Empty(), map[], [], map[], 0, [])
  }

  // ---------- Messages ----------

  function NewMsg(id: string, target: string, body: string, timestamp: int, ttl: int, ackTimeout: int): Msg {
    Msg(id, target, body, timestamp, ttl, ackTimeout, Pending, 0, "", 0.0, "")
  }

  function Note(s: Broker, e: Event): Broker {
    s.(trace := s.trace + [e])
  }

  /** The registry lists the same ids in the same order, none was issued, and the configuration is the same. */
  predicate SameRegistry(s: Broker, s': Broker) {
    && s'.msgs.keys == s.msgs.keys && s'.msgs.vals.Keys == s.msgs.vals.Keys && s'.counter == s.counter
    && s'.cfg == s.cfg
  }

  /** Nor did queues or topic offsets come or go. */
  predicate SameIds(s: Broker, s': Broker) {
    SameRegistry(s, s') && s'.queues.Keys == s.queues.Keys && s'.offsets == s.offsets
  }

  /** Overwrite a registered message, keeping its place in the registry. */
  function SetMsg(s: Broker, id: string, m: Msg): (r: Broker)
    requires id in s.msgs.vals
    ensures SameIds(s, r)
  {
    s.(msgs := Dict(s.msgs.keys, s.msgs.vals[id := m]))
  }

  /** `_messages[msg.msg_id] = msg`. */
  function Register(s: Broker, m: Msg): Broker {
    Note(s.(msgs := s.msgs.Put(m.id, m)), Registered(m.id, m.target))
  }

  // ---------- Queues ----------

  predicate NameChar(c: char) {
    'a' <= c <= 'z' || 'A' <= c <= 'Z' || '0' <= c <= '9' || c == '_' || c == '-'
  }

  /** The pattern `^[a-zA-Z0-9_-]{1,256}$`; its `$` also matches before one final newline. */
  predicate ValidName(name: string) {
    var core := WithoutNewline(name);
    1 <= |core| <= 256 && forall i :: 0 <= i < |core| ==> NameChar(core[i])
  }

  function WithoutNewline(s: string): string {
    if s != "" && s[|s| - 1] == '\n' then s[..|s| - 1] else s
  }

  /** `len(body.encode("utf-8"))`. */
  function Utf8Length(body: string): nat {
    if body == [] then 0
    else
      var c := body[0] as int;
      (if c < 0x80 then 1 else if c < 0x800 then 2 else if c < 0x10000 then 3 else 4) + Utf8Length(body[1..])
  }

  function CheckBody(cfg: Config, body: string): Result<(), ErrorCode> {
    if body == "" then Err(EmptyMessage)
    else if Utf8Length(body) > cfg.maxMessageBytes then Err(MessageTooLarge)
    else Ok(())
  }

  function Enqueue(s: Broker, queue: string, id: string, body: string): Result<Broker, ErrorCode> {
    var _ :- CheckBody(s.cfg, body);
    if queue !in s.queues then Err(QueueNotFound)
    else
      var q := s.queues[queue];
      if |q.items| >= q.maxSize then Err(QueueFull)
      else Ok(Note(s.(queues := s.queues[queue := q.(items := q.items + [id])]), Enqueued(queue, id)))
  }

  /** `popleft` on a queue that has an entry. */
  function DropHead(s: Broker, queue: string): (r: Broker)
    requires queue in s.queues && s.queues[queue].items != []
    ensures SameIds(s, r)
  {
    var q := s.queues[queue];
    Note(s.(queues := s.queues[queue := q.(items := q.items[1..])]), Dequeued(queue, q.items[0]))
  }

  function CreateQueue(s: Broker, name: string, size: Option<int>): (r: (Broker, Reply))
    ensures SameRegistry(s, r.0)
  {
    if !ValidName(name) then (s, Error(InvalidName))
    else if name in s.queues then (s, Error(QueueExists))
    else
      var maxSize := if size.Some? && size.value > 0 then size.value else s.cfg.defaultMaxSize;
      (Note(s.(queues := s.queues[name := Queue([], maxSize)]), Created(name)), Done)
  }

  function DeleteQueue(s: Broker, name: string): (r: (Broker, Reply))
    ensures SameRegistry(s, r.0)
  {
    if name !in s.queues then (s, Error(QueueNotFound))
    else if s.queues[name].items != [] then (s, Error(QueueNotEmpty))
    else (s.(queues := s.queues - {name}), Done)
  }

  // ---------- Producing ----------

  function NextId(s: Broker, ms: nat): string {
    MakeId(ms, s.counter + 1)
  }

  /** SEND. A full queue withdraws the message; any other refusal leaves it registered. */
  function Send(s: Broker, queue: string, body: string, ms: nat, seconds: int): (Broker, Reply) {
    var id := NextId(s, ms);
    var counted := s.(counter := s.counter + 1);
    var s1 := Register(counted, NewMsg(id, queue, body, seconds, 0, 0));
    match Enqueue(s1, queue, id, body)
    case Ok(s2) => (s2, NewId(id))
    case Err(QueueFull) => (counted.(msgs := s1.msgs.Pop(id)), Error(QueueFull))
    case Err(e) => (s1, Error(e))
  }

  /** PUBLISH; `exists` is the topic manager's answer. */
  function Publish(s: Broker, topic: string, topicExists: bool, body: string, ms: nat, seconds: int): (Broker, Reply) {
    if !topicExists then (s, Error(TopicNotFound))
    else
      var id := NextId(s, ms);
      (Register(s.(counter := s.counter + 1), NewMsg(id, topic, body, seconds, 0, 0)), NewId(id))
  }

  /** A message recovered at start-up joins the registry, unless its id is already there. */
  function Restore(s: Broker, m: Msg): Broker {
    if m.id in s.msgs.vals then s
    else Register(s, if m.status == Acked then m else m.(status := Pending))
  }

  // ---------- Consuming ----------

  function Deliver(s: Broker, id: string, consumer: string, now: real): (r: Broker)
    requires id in s.msgs.vals
    ensures SameIds(s, r)
  {
    var m := s.msgs.vals[id];
    Note(SetMsg(s, id, m.(status := Delivered, deliveredTo := consumer, deliverTime := now)), Delivery(id))
  }

  /** Non-blocking CONSUME: ids that are no longer registered are skipped. */
  function Consume(s: Broker, queue: string, consumer: string, now: real): (r: (Broker, Reply))
    ensures SameIds(s, r.0)
    decreases if queue in s.queues then |s.queues[queue].items| else 0
  {
    if queue !in s.queues then (s, Error(QueueNotFound))
    else if s.queues[queue].items == [] then (s, Nothing)
    else
      var id := s.queues[queue].items[0];
      var s1 := DropHead(s, queue);
      if id !in s.msgs.vals then Consume(s1, queue, consumer, now)
      else (Deliver(s1, id, consumer, now), Got(id, s.msgs.vals[id].body))
  }

  // ---------- Confirming ----------

  datatype AckResult = AckOk | NotDelivered | WrongConsumer

  function AckCheck(m: Msg, consumer: string): AckResult {
    if m.status != Delivered then (if m.status == Acked then AckOk else NotDelivered)
    else if m.deliveredTo != consumer then WrongConsumer
    else AckOk
  }

  /** `ack_mgr.ack` on a message it accepts. */
  function Confirm(s: Broker, id: string): (r: Broker)
    requires id in s.msgs.vals
    ensures SameIds(s, r)
  {
    var m := s.msgs.vals[id];
    if m.status == Acked then s else Note(SetMsg(s, id, m.(status := Acked)), Confirmed(id))
  }

  /** ACK. A message that is not out for delivery is answered OK as well. */
  function Ack(s: Broker, id: string, consumer: string): (r: (Broker, Reply))
    ensures SameIds(s, r.0)
  {
    if id !in s.msgs.vals then (s, Error(MessageNotFound))
    else
      match AckCheck(s.msgs.vals[id], consumer)
      case AckOk => (Confirm(s, id), Done)
      case NotDelivered => (s, Done)
      case WrongConsumer => (s, Error(NotYourMessage))
  }

  /** The loop of ACK_BATCH over the first `n` ids, with the ids that failed. */
  function AckEach(s: Broker, ids: seq<string>, n: nat, consumer: string): (r: (Broker, seq<string>))
    requires n <= |ids|
    ensures SameIds(s, r.0)
  {
    if n == 0 then (s, [])
    else
      var (s1, failed) := AckEach(s, ids, n - 1, consumer);
      var id := ids[n - 1];
      if id !in s1.msgs.vals || AckCheck(s1.msgs.vals[id], consumer) != AckOk then (s1, failed + [id])
      else (Confirm(s1, id), failed)
  }

  function AckBatch(s: Broker, ids: seq<string>, consumer: string): (r: (Broker, Reply))
    ensures SameIds(s, r.0)
  {
    var (s1, failed) := AckEach(s, ids, |ids|, consumer);
    (s1, if failed == [] then Done else PartialAck(failed))
  }

  // ---------- Failing ----------

  /** A message in the dead-letter store: it remembers its target. */
  function Aged(m: Msg): Msg {
    m.(originalTarget := m.target, target := DLQ, status := Dead)
  }

  /** `_move_to_dlq`. */
  function Bury(s: Broker, id: string): (r: Broker)
    requires id in s.msgs.vals
    ensures SameIds(s, r)
  {
    var s1 := SetMsg(s, id, Aged(s.msgs.vals[id]));
    Note(s1.(dlq := if id in s.dlq then s.dlq else s.dlq + [id]), Buried(id))
  }

  function Release(m: Msg): Msg {
    m.(status := Pending, deliveredTo := "", deliverTime := 0.0)
  }

  /** One more failed delivery: back to PENDING, or to the dead-letter store past the retry limit. */
  function Fail(s: Broker, id: string): (r: Broker)
    requires id in s.msgs.vals
    ensures SameIds(s, r)
  {
    var m := s.msgs.vals[id];
    var m1 := m.(retryCount := m.retryCount + 1);
    if m1.retryCount > s.cfg.maxRetries then Bury(Note(SetMsg(s, id, m1), Failed(id)), id)
    else Note(SetMsg(s, id, Release(m1)), Failed(id))
  }

  /** Put a message back into the queue it targets, if that queue exists. `false`: the queue refused it and the
      exception leaves the caller. */
  function Requeue(s: Broker, id: string): (r: (Broker, bool))
    requires id in s.msgs.vals
    ensures SameIds(s, r.0)
  {
    var m := s.msgs.vals[id];
    if m.target !in s.queues then (s, true)
    else
      match Enqueue(s, m.target, id, m.body)
      case Ok(s1) => (s1, true)
      case Err(_) => (s, false)
  }

  function Nack(s: Broker, id: string, consumer: string): (r: (Broker, Reply))
    ensures SameIds(s, r.0)
  {
    if id !in s.msgs.vals then (s, Error(MessageNotFound))
    else if s.msgs.vals[id].status != Delivered || s.msgs.vals[id].deliveredTo != consumer then
      (s, Error(NotYourMessage))
    else
      var s1 := Fail(s, id);
      if s1.msgs.vals[id].status != Pending then (s1, Done)
      else
        var (s2, ok) := Requeue(s1, id);
        (s2, if ok then Done else Error(InternalError))
  }

  // ---------- The ACK-timeout sweep ----------

  predicate TimedOut(cfg: Config, m: Msg, now: real) {
    && m.status == Delivered
    && m.deliverTime > 0.0
    && now - m.deliverTime > (if m.ackTimeout > 0 then m.ackTimeout as real else cfg.defaultAckTimeout)
  }

  /** `check_timeouts` over the first `n` registered messages, with the ids to put back. */
  function CheckTimeouts(s: Broker, n: nat, now: real): (r: (Broker, seq<string>))
    requires n <= |s.msgs.keys|
    ensures SameIds(s, r.0)
  {
    if n == 0 then (s, [])
    else
      var (s1, expired) := CheckTimeouts(s, n - 1, now);
      var id := s.msgs.keys[n - 1];
      if id in s1.msgs.vals && TimedOut(s1.cfg, s1.msgs.vals[id], now) then
        var s2 := Fail(s1, id);
        (s2, if s2.msgs.vals[id].status == Pending then expired + [id] else expired)
      else (s1, expired)
  }

  /** Requeue `ids` in order, those still PENDING; the first refusal abandons the rest. */
  function RequeuePending(s: Broker, ids: seq<string>): (r: Broker)
    ensures SameIds(s, r)
    decreases ids
  {
    if ids == [] then s
    else if ids[0] !in s.msgs.vals || s.msgs.vals[ids[0]].status != Pending then RequeuePending(s, ids[1..])
    else
      var (s1, ok) := Requeue(s, ids[0]);
      if ok then RequeuePending(s1, ids[1..]) else s1
  }

  function Sweep(s: Broker, now: real): (r: Broker)
    ensures SameIds(s, r)
  {
    var (s1, expired) := CheckTimeouts(s, |s.msgs.keys|, now);
    RequeuePending(s1, expired)
  }

  // ---------- Hand-back ----------

  function HandBackOne(s: Broker, id: string): (r: Broker)
    requires id in s.msgs.vals
    ensures SameIds(s, r)
  {
    Note(SetMsg(s, id, Release(s.msgs.vals[id])), HandedBack(id))
  }

  predicate HeldBy(s: Broker, id: string, consumer: string) {
    id in s.msgs.vals && s.msgs.vals[id].deliveredTo == consumer && s.msgs.vals[id].status == Delivered
  }

  /** `_redeliver_pending_messages` over `ids`; the first refusal abandons the rest. */
  function HandBackEach(s: Broker, ids: seq<string>, consumer: string): (r: Broker)
    ensures SameIds(s, r)
    decreases ids
  {
    if ids == [] then s
    else if !HeldBy(s, ids[0], consumer) then HandBackEach(s, ids[1..], consumer)
    else
      var (s1, ok) := Requeue(HandBackOne(s, ids[0]), ids[0]);
      if ok then HandBackEach(s1, ids[1..], consumer) else s1
  }

  function HandBack(s: Broker, consumer: string): (r: Broker)
    ensures SameIds(s, r)
  {
    HandBackEach(s, s.msgs.keys, consumer)
  }

  // ---------- Dead letters ----------

  /** A dead message brought back: home again, PENDING, with a clean record. */
  function Revived(m: Msg): Msg {
    Release(m).(target := m.originalTarget, originalTarget := "", retryCount := 0)
  }

  /** `replay_from_dlq` on an id that is there. */
  function Unbury(s: Broker, id: string): (r: Broker)
    requires id in s.msgs.vals
    ensures SameIds(s, r)
  {
    Note(SetMsg(s, id, Revived(s.msgs.vals[id])).(dlq := Remove(s.dlq, id)), Replayed(id))
  }

  function Replay(s: Broker, id: string): (r: (Broker, Reply))
    ensures SameIds(s, r.0)
  {
    if id !in s.dlq || id !in s.msgs.vals then (s, Error(MessageNotFound))
    else
      var (s1, ok) := Requeue(Unbury(s, id), id);
      (s1, if ok then Done else Error(InternalError))
  }

  /** The dead letters that came from `target`, in store order. */
  function DeadFrom(s: Broker, dlq: seq<string>, target: string): (ids: seq<string>)
    ensures |ids| <= |dlq|
  {
    if dlq == [] then []
    else
      var rest := DeadFrom(s, dlq[1..], target);
      if dlq[0] in s.msgs.vals && s.msgs.vals[dlq[0]].originalTarget == target then [dlq[0]] + rest else rest
  }

  function UnburyEach(s: Broker, ids: seq<string>, n: nat): (r: Broker)
    requires n <= |ids|
    ensures SameIds(s, r)
  {
    if n == 0 then s
    else
      var s1 := UnburyEach(s, ids, n - 1);
      if ids[n - 1] in s1.msgs.vals then Unbury(s1, ids[n - 1]) else s1
  }

  /** Requeue all of `ids` in order; the first refusal abandons the rest. */
  function RequeueEach(s: Broker, ids: seq<string>): (r: (Broker, bool))
    ensures SameIds(s, r.0)
    decreases ids
  {
    if ids == [] then (s, true)
    else if ids[0] !in s.msgs.vals then RequeueEach(s, ids[1..])
    else
      var (s1, ok) := Requeue(s, ids[0]);
      if ok then RequeueEach(s1, ids[1..]) else (s1, false)
  }

  function ReplayAll(s: Broker, target: string): (r: (Broker, Reply))
    ensures SameIds(s, r.0)
  {
    var ids := DeadFrom(s, s.dlq, target);
    var (s1, ok) := RequeueEach(UnburyEach(s, ids, |ids|), ids);
    (s1, if ok then Replays(|ids|) else Error(InternalError))
  }

  // ---------- Topics ----------

  function OffsetKey(topic: string, consumer: string): string {
    topic + ":" + consumer
  }

  function OffsetOf(s: Broker, topic: string, consumer: string): nat {
    var key := OffsetKey(topic, consumer);
    if key in s.offsets then s.offsets[key] else 0
  }

  /** The ids of a topic's messages, sorted. */
  ghost function TopicIds(s: Broker, topic: string): seq<string> {
    Listing(set id | id in s.msgs.vals && s.msgs.vals[id].target == topic)
  }

  ghost function FetchTopic(s: Broker, topic: string, consumer: string): (r: (Broker, Reply))
    ensures SameRegistry(s, r.0)
  {
    var offset := OffsetOf(s, topic, consumer);
    var ids := TopicIds(s, topic);
    if offset < |ids| then
      assert ids[offset] in ids;
      (s.(offsets := s.offsets[OffsetKey(topic, consumer) := offset + 1]),
       Got(ids[offset], s.msgs.vals[ids[offset]].body))
    else (s, Nothing)
  }

  function SetOffset(s: Broker, topic: string, consumer: string, offset: int): (r: (Broker, Reply))
    ensures SameRegistry(s, r.0)
  {
    if offset < 0 then (s, Error(InvalidOffset))
    else (s.(offsets := s.offsets[OffsetKey(topic, consumer) := offset]), Done)
  }

  // ---------- Commands ----------

  datatype Command =
    | CreateQueueCmd(name: string, size: Option<int>)
    | DeleteQueueCmd(name: string)
    | SendCmd(queue: string, body: string, ms: nat, seconds: int)
    | PublishCmd(topic: string, topicExists: bool, body: string, ms: nat, seconds: int)
    | RestoreCmd(id: string, target: string, body: string, timestamp: int, ttl: int, ackTimeout: int)
    | ConsumeCmd(queue: string, consumer: string, now: real)
    | AckCmd(id: string, consumer: string)
    | AckBatchCmd(ids: seq<string>, consumer: string)
    | NackCmd(id: string, consumer: string)
    | SweepCmd(now: real)
    | HandBackCmd(consumer: string)
    | ReplayCmd(id: string)
    | ReplayAllCmd(target: string)
    | FetchCmd(topic: string, consumer: string)
    | SetOffsetCmd(topic: string, consumer: string, offset: int)

  ghost function Step(s: Broker, c: Command): Broker {
    match c
    case CreateQueueCmd(name, size) => CreateQueue(s, name, size).0
    case DeleteQueueCmd(name) => DeleteQueue(s, name).0
    case SendCmd(queue, body, ms, seconds) => Send(s, queue, body, ms, seconds).0
    case PublishCmd(topic, topicExists, body, ms, seconds) => Publish(s, topic, topicExists, body, ms, seconds).0
    case RestoreCmd(id, target, body, timestamp, ttl, ackTimeout) =>
      Restore(s, NewMsg(id, target, body, timestamp, ttl, ackTimeout))
    case ConsumeCmd(queue, consumer, now) => Consume(s, queue, consumer, now).0
    case AckCmd(id, consumer) => Ack(s, id, consumer).0
    case AckBatchCmd(ids, consumer) => AckBatch(s, ids, consumer).0
    case NackCmd(id, consumer) => Nack(s, id, consumer).0
    case SweepCmd(now) => Sweep(s, now)
    case HandBackCmd(consumer) => HandBack(s, consumer)
    case ReplayCmd(id) => Replay(s, id).0
    case ReplayAllCmd(target) => ReplayAll(s, target).0
    case FetchCmd(topic, consumer) => FetchTopic(s, topic, consumer).0
    case SetOffsetCmd(topic, consumer, offset) => SetOffset(s, topic, consumer, offset).0
  }

  ghost function Run(s: Broker, cs: seq<Command>): Broker {
    if cs == [] then s
    else
      var n := |cs| - 1;
      Step(Run(s, cs[..n]), cs[n])
  }
}
