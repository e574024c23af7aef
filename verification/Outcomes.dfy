/** The outcome of each command and sweep, field by field: which reply, which records change and how, what joins or
    leaves which queue. The conditions are those a reader of the protocol knows, with the arithmetic written out. */
module Outcomes {

  import opened Common
  import opened Dicts
  import opened Order
  import opened MessageIds
  import opened Text
  import opened Utf8Text
  import opened Lifecycle
  import opened LifecycleInvariant
  import opened LifecycleRecords
  import opened LifecycleRuns
  import opened LifecycleTheorems
  import opened Requeueing
  import opened DeadLetters

  // ---------- Names and bodies ----------

  const DIGITS := "0123456789"

  /** The characters of a queue name. */
  predicate Listed(c: char) {
    c in LOWER || c in UPPER || c in DIGITS || c in "_-"
  }

  /** One to 256 of the allowed characters, and perhaps one newline behind them. */
  ghost predicate Matches(name: string, core: string) {
    && (name == core || name == core + "\n")
    && 1 <= |core| <= 256
    && AllListed(core)
  }

  lemma LowerListed(c: char)
    ensures 'a' <= c <= 'z' <==> c in LOWER
  {
    if 'a' <= c <= 'z' {
      assert LOWER[c as int - 'a' as int] == c;
    }
  }

  lemma UpperListed(c: char)
    ensures 'A' <= c <= 'Z' <==> c in UPPER
  {
    if 'A' <= c <= 'Z' {
      assert UPPER[c as int - 'A' as int] == c;
    }
  }

  lemma DigitListed(c: char)
    ensures '0' <= c <= '9' <==> c in DIGITS
  {
    if '0' <= c <= '9' {
      assert DIGITS[c as int - '0' as int] == c;
    }
  }

  lemma NameCharListed(c: char)
    ensures NameChar(c) <==> Listed(c)
  {
    LowerListed(c);
    UpperListed(c);
    DigitListed(c);
    assert c in "_-" <==> c == '_' || c == '-';
  }

  ghost predicate AllListed(core: string) {
    forall c :: c in core ==> Listed(c)
  }

  lemma ListedIsNameChar(core: string)
    requires AllListed(core)
    ensures forall i :: 0 <= i < |core| ==> NameChar(core[i])
  {
    hide NameChar, Listed;
    forall i | 0 <= i < |core|
      ensures NameChar(core[i])
    {
      assert core[i] in core;
      NameCharListed(core[i]);
    }
  }

  lemma NameCharIsListed(core: string)
    requires forall i :: 0 <= i < |core| ==> NameChar(core[i])
    ensures AllListed(core)
  {
    hide NameChar, Listed;
    forall c | c in core
      ensures Listed(c)
    {
      var i :| 0 <= i < |core| && core[i] == c;
      NameCharListed(core[i]);
    }
  }

  lemma NewlineNotListed(core: string)
    requires AllListed(core)
    ensures '\n' !in core
  {
    assert !Listed('\n');
  }

  lemma MatchIsValid(name: string, core: string)
    requires Matches(name, core)
    ensures ValidName(name)
  {
    hide NameChar, Listed;
    ListedIsNameChar(core);
    NewlineNotListed(core);
    if name == core {
      assert name[|name| - 1] in core;
    } else {
      assert name[..|name| - 1] == core;
    }
  }

  lemma ValidMatches(name: string)
    requires ValidName(name)
    ensures exists core :: Matches(name, core)
  {
    hide NameChar, Listed, AllListed;
    var core := WithoutNewline(name);
    NameCharIsListed(core);
    assert Matches(name, core);
  }

  /** The pattern for queue names, read as one. */
  lemma NamesMatch(name: string)
    ensures ValidName(name) <==> exists core :: Matches(name, core)
  {
    hide ValidName, Matches;
    if ValidName(name) {
      ValidMatches(name);
    }
    if core :| Matches(name, core) {
      MatchIsValid(name, core);
    }
  }

  /** CREATE_QUEUE. */
  lemma CreateQueueOutcome(s: Broker, name: string, size: Option<int>)
    ensures var (s', r) := CreateQueue(s, name, size);
            var capacity := if size.Some? && size.value > 0 then size.value else s.cfg.defaultMaxSize;
            && r == (if !exists core :: Matches(name, core) then Error(InvalidName)
                     else if name in s.queues then Error(QueueExists) else Done)
            && s' == if r == Done then s.(queues := s.queues[name := Queue([], capacity)],
                                          trace := s.trace + [Created(name)]) else s
  {
    NamesMatch(name);
  }

  /** DELETE_QUEUE. */
  lemma DeleteQueueOutcome(s: Broker, name: string)
    ensures var (s', r) := DeleteQueue(s, name);
            && r == (if name !in s.queues then Error(QueueNotFound)
                     else if s.queues[name].items != [] then Error(QueueNotEmpty) else Done)
            && s' == if r == Done then s.(queues := s.queues - {name}) else s
  {
  }

  /** A body is refused when it is empty or its encoding is longer than the limit. */
  lemma BodyOutcome(cfg: Config, body: string)
    ensures CheckBody(cfg, body) ==
            (if body == "" then Err(EmptyMessage)
             else if |EncodeText(body)| > cfg.maxMessageBytes then Err(MessageTooLarge) else Ok(()))
  {
    EncodedLength(body);
  }

  // ---------- SEND, PUBLISH and start-up ----------

  /** SEND: the reply in each case, the new record, the registry and the queues. */
  lemma SendExact(s: Broker, queue: string, body: string, ms: nat, seconds: int)
    requires s.msgs.Valid() && MakeId(ms, s.counter + 1) !in s.msgs.vals
    ensures var (s', r) := Send(s, queue, body, ms, seconds);
            var id := MakeId(ms, s.counter + 1);
            var m := Msg(id, queue, body, seconds, 0, 0, Pending, 0, "", 0.0, "");
            && r == (if body == "" then Error(EmptyMessage)
                     else if |EncodeText(body)| > s.cfg.maxMessageBytes then Error(MessageTooLarge)
                     else if queue !in s.queues then Error(QueueNotFound)
                     else if |s.queues[queue].items| >= s.queues[queue].maxSize then Error(QueueFull)
                     else NewId(id))
            && s'.cfg == s.cfg && s'.counter == s.counter + 1 && s'.offsets == s.offsets && s'.dlq == s.dlq
            && s'.msgs.keys == (if r == Error(QueueFull) then s.msgs.keys else s.msgs.keys + [id])
            && s'.msgs.vals == (if r == Error(QueueFull) then s.msgs.vals else s.msgs.vals[id := m])
            && s'.queues == if r != NewId(id) then s.queues
                            else s.queues[queue := Queue(s.queues[queue].items + [id], s.queues[queue].maxSize)]
  {
    hide MakeId, CheckBody, Send;
    BodyOutcome(s.cfg, body);
    SendOutcome(s, queue, body, ms, seconds);
  }

  /** PUBLISH: the body is not checked. */
  lemma PublishExact(s: Broker, topic: string, topicExists: bool, body: string, ms: nat, seconds: int)
    requires MakeId(ms, s.counter + 1) !in s.msgs.vals
    ensures var (s', r) := Publish(s, topic, topicExists, body, ms, seconds);
            var id := MakeId(ms, s.counter + 1);
            var m := Msg(id, topic, body, seconds, 0, 0, Pending, 0, "", 0.0, "");
            if !topicExists then s' == s && r == Error(TopicNotFound)
            else
              && r == NewId(id)
              && s'.msgs.keys == s.msgs.keys + [id] && s'.msgs.vals == s.msgs.vals[id := m]
              && s'.counter == s.counter + 1 && s'.cfg == s.cfg && s'.queues == s.queues && s'.dlq == s.dlq
              && s'.offsets == s.offsets
  {
    hide MakeId;
  }

  /** A recovered message joins the registry as it is, but PENDING unless it was acknowledged; a known id is left
      alone. */
  lemma RestoreExact(s: Broker, m: Msg)
    ensures var s' := Restore(s, m);
            if m.id in s.msgs.vals then s' == s
            else
              && s'.msgs.keys == s.msgs.keys + [m.id]
              && s'.msgs.vals == s.msgs.vals[m.id := if m.status == Acked then m else m.(status := Pending)]
              && s'.cfg == s.cfg && s'.queues == s.queues && s'.dlq == s.dlq && s'.offsets == s.offsets
              && s'.counter == s.counter
  {
  }

  /** What start-up registers under an unknown id: the recovered fields, PENDING and never delivered. */
  lemma RecoveredExact(s: Broker, id: string, target: string, body: string, timestamp: int, ttl: int, ackTimeout: int)
    requires id !in s.msgs.vals
    ensures var s' := Step(s, RestoreCmd(id, target, body, timestamp, ttl, ackTimeout));
            && s'.msgs.keys == s.msgs.keys + [id]
            && s'.msgs.vals ==
               s.msgs.vals[id := Msg(id, target, body, timestamp, ttl, ackTimeout, Pending, 0, "", 0.0, "")]
            && s'.cfg == s.cfg && s'.queues == s.queues && s'.dlq == s.dlq && s'.offsets == s.offsets
            && s'.counter == s.counter
  {
  }

  // ---------- CONSUME ----------

  /** CONSUME: a missing queue is an error; with no registered id in it the queue is emptied and the answer is null;
      otherwise the first registered id is handed out with its own body, exactly the entries up to it leave the queue,
      and its record alone changes: out to this consumer, since now. */
  lemma {:induction false} ConsumeExact(s: Broker, queue: string, consumer: string, now: real) returns (k: nat)
    ensures var (s', r) := Consume(s, queue, consumer, now);
            && s'.cfg == s.cfg && s'.msgs.keys == s.msgs.keys && s'.dlq == s.dlq && s'.offsets == s.offsets
            && s'.counter == s.counter
            && if queue !in s.queues then s' == s && r == Error(QueueNotFound)
               else
                 var items := s.queues[queue].items;
                 && k <= |items|
                 && (forall j :: 0 <= j < k ==> items[j] !in s.msgs.vals)
                 && if k == |items| then
                      && r == Nothing && s'.msgs.vals == s.msgs.vals
                      && s'.queues == s.queues[queue := Queue([], s.queues[queue].maxSize)]
                    else
                      var id := items[k];
                      && id in s.msgs.vals
                      && r == Got(id, s.msgs.vals[id].body)
                      && s'.queues == s.queues[queue := Queue(items[k + 1..], s.queues[queue].maxSize)]
                      && s'.msgs.vals ==
                         s.msgs.vals[id := s.msgs.vals[id].(status := Delivered, deliveredTo := consumer,
                                                            deliverTime := now)]
    decreases if queue in s.queues then |s.queues[queue].items| else 0
  {
    hide SameIds;
    k := 0;
    if queue in s.queues {
      var items := s.queues[queue].items;
      if items == [] {
        assert s.queues[queue] == Queue([], s.queues[queue].maxSize);
      } else if items[0] !in s.msgs.vals {
        var s1 := DropHead(s, queue);
        DropHeadFields(s, queue);
        var rest := ConsumeExact(s1, queue, consumer, now);
        k := rest + 1;
        assert forall j :: 0 < j < |items| ==> items[j] == items[1..][j - 1];
        assert s1.queues[queue := Queue([], s.queues[queue].maxSize)] ==
               s.queues[queue := Queue([], s.queues[queue].maxSize)];
      } else {
        DropHeadFields(s, queue);
      }
    }
  }

  lemma DropHeadFields(s: Broker, queue: string)
    requires queue in s.queues && s.queues[queue].items != []
    ensures var s' := DropHead(s, queue);
            && s'.cfg == s.cfg && s'.msgs == s.msgs && s'.dlq == s.dlq && s'.offsets == s.offsets
            && s'.counter == s.counter
            && s'.queues == s.queues[queue := Queue(s.queues[queue].items[1..], s.queues[queue].maxSize)]
  {
  }

  // ---------- ACK and ACK_BATCH ----------

  /** `id` is acknowledged, or out to `consumer`. */
  predicate MayAck(s: Broker, id: string, consumer: string) {
    && id in s.msgs.vals
    && (s.msgs.vals[id].status == Acked ||
        (s.msgs.vals[id].status == Delivered && s.msgs.vals[id].deliveredTo == consumer))
  }

  /** ACK: the record of a message that is out to this consumer becomes ACKED and nothing else changes; only an unknown
      id and a message out to another consumer are errors. */
  lemma AckExact(s: Broker, id: string, consumer: string)
    ensures var (s', r) := Ack(s, id, consumer);
            && r == (if id !in s.msgs.vals then Error(MessageNotFound)
                     else if s.msgs.vals[id].status == Delivered && s.msgs.vals[id].deliveredTo != consumer
                     then Error(NotYourMessage) else Done)
            && s'.cfg == s.cfg && s'.msgs.keys == s.msgs.keys && s'.queues == s.queues && s'.dlq == s.dlq
            && s'.offsets == s.offsets && s'.counter == s.counter
            && s'.msgs.vals ==
               if MayAck(s, id, consumer) then s.msgs.vals[id := s.msgs.vals[id].(status := Acked)] else s.msgs.vals
  {
    hide Confirm;
    if id in s.msgs.vals {
      ConfirmExact(s, id);
    }
  }

  /** The ids that ACK_BATCH reports, in order and with repeats. */
  function Unackable(s: Broker, ids: seq<string>, consumer: string): seq<string> {
    if ids == [] then []
    else
      var n := |ids| - 1;
      Unackable(s, ids[..n], consumer) + if MayAck(s, ids[n], consumer) then [] else [ids[n]]
  }

  lemma MayAckIs(s: Broker, id: string, consumer: string)
    ensures MayAck(s, id, consumer) <==> id in s.msgs.vals && AckCheck(s.msgs.vals[id], consumer) == AckOk
  {
  }

  lemma ConfirmExact(s: Broker, id: string)
    requires id in s.msgs.vals
    ensures var s' := Confirm(s, id);
            && s'.cfg == s.cfg && s'.msgs.keys == s.msgs.keys && s'.queues == s.queues && s'.dlq == s.dlq
            && s'.offsets == s.offsets && s'.counter == s.counter
            && s'.msgs.vals == s.msgs.vals[id := s.msgs.vals[id].(status := Acked)]
  {
    if s.msgs.vals[id].status == Acked {
      assert s.msgs.vals[id].(status := Acked) == s.msgs.vals[id];
      assert s.msgs.vals[id := s.msgs.vals[id]] == s.msgs.vals;
    }
  }

  /** `s'` is `s` with those of `ids` acknowledged that may be. */
  ghost predicate AckedAmong(s: Broker, ids: seq<string>, consumer: string, s': Broker) {
    && s'.cfg == s.cfg && s'.msgs.keys == s.msgs.keys && s'.queues == s.queues && s'.dlq == s.dlq
    && s'.offsets == s.offsets && s'.counter == s.counter
    && s'.msgs.vals.Keys == s.msgs.vals.Keys
    && (forall id :: id in s.msgs.vals ==>
          s'.msgs.vals[id] ==
          if id in ids && MayAck(s, id, consumer) then s.msgs.vals[id].(status := Acked) else s.msgs.vals[id])
  }

  lemma AckedOneMore(s: Broker, ids: seq<string>, consumer: string, s1: Broker, id: string)
    requires AckedAmong(s, ids, consumer, s1)
    ensures MayAck(s1, id, consumer) <==> MayAck(s, id, consumer)
    ensures if MayAck(s, id, consumer) then id in s1.msgs.vals && AckedAmong(s, ids + [id], consumer, Confirm(s1, id))
            else AckedAmong(s, ids + [id], consumer, s1)
  {
    hide Confirm;
    if MayAck(s, id, consumer) {
      ConfirmExact(s1, id);
    }
  }

  lemma {:induction false} AckEachExact(s: Broker, ids: seq<string>, n: nat, consumer: string)
    requires n <= |ids|
    ensures AckedAmong(s, ids[..n], consumer, AckEach(s, ids, n, consumer).0)
    ensures AckEach(s, ids, n, consumer).1 == Unackable(s, ids[..n], consumer)
  {
    hide Confirm, AckCheck, SameIds, MayAck;
    if n > 0 {
      hide AckedAmong;
      AckEachExact(s, ids, n - 1, consumer);
      var id := ids[n - 1];
      var s1 := AckEach(s, ids, n - 1, consumer).0;
      MayAckIs(s1, id, consumer);
      AckedOneMore(s, ids[..n - 1], consumer, s1, id);
      assert ids[..n] == ids[..n - 1] + [id];
      assert ids[..n][..n - 1] == ids[..n - 1];
    }
  }

  /** ACK_BATCH: afterwards a message is ACKED exactly when it was, or is listed and was out to this consumer; no other
      field or record changes; the reply names exactly the ids that are unregistered or neither acknowledged nor out to
      this consumer. */
  lemma AckBatchExact(s: Broker, ids: seq<string>, consumer: string)
    ensures var (s', r) := AckBatch(s, ids, consumer);
            && s'.cfg == s.cfg && s'.msgs.keys == s.msgs.keys && s'.queues == s.queues && s'.dlq == s.dlq
            && s'.offsets == s.offsets && s'.counter == s.counter
            && s'.msgs.vals.Keys == s.msgs.vals.Keys
            && (forall id :: id in s.msgs.vals ==>
                  var m := s.msgs.vals[id];
                  s'.msgs.vals[id] ==
                  if id in ids && m.status == Delivered && m.deliveredTo == consumer then m.(status := Acked) else m)
            && r == if Unackable(s, ids, consumer) == [] then Done else PartialAck(Unackable(s, ids, consumer))
  {
    hide AckEach;
    AckEachExact(s, ids, |ids|, consumer);
    assert ids[..|ids|] == ids;
  }

  /** The reported ids are those of the list that may not be acknowledged, each as often as it is listed. */
  lemma {:induction false} UnackableExact(s: Broker, ids: seq<string>, consumer: string)
    ensures forall id :: id in Unackable(s, ids, consumer) <==> id in ids && !MayAck(s, id, consumer)
    ensures forall id :: !MayAck(s, id, consumer) ==> multiset(Unackable(s, ids, consumer))[id] == multiset(ids)[id]
  {
    hide MayAck;
    if ids != [] {
      var n := |ids| - 1;
      UnackableExact(s, ids[..n], consumer);
      assert ids == ids[..n] + [ids[n]];
    }
  }

  // ---------- NACK, REPLAY ----------

  /** A message that has been released. */
  function Freed(m: Msg): Msg {
    m.(status := Pending, deliveredTo := "", deliverTime := 0.0)
  }

  /** The record after one failed delivery: one more retry and PENDING again, or dead once the retries are used up. */
  function AfterFailure(cfg: Config, m: Msg): Msg {
    if m.retryCount < cfg.maxRetries then Freed(m).(retryCount := m.retryCount + 1)
    else m.(retryCount := m.retryCount + 1, originalTarget := m.target, target := "DLQ", status := Dead)
  }

  lemma AfterFailureIs(cfg: Config, m: Msg)
    ensures FailedMsg(cfg, m) == AfterFailure(cfg, m)
  {
  }

  /** Why a queue may refuse a message that comes back: never when the queue does not exist. */
  predicate Refused(s: Broker, target: string, body: string) {
    && target in s.queues
    && (body == "" || |EncodeText(body)| > s.cfg.maxMessageBytes ||
        |s.queues[target].items| >= s.queues[target].maxSize)
  }

  /** The queues after a message came back. */
  function After(s: Broker, target: string, body: string, id: string): map<string, Queue> {
    if target in s.queues && !Refused(s, target, body)
    then s.queues[target := Queue(s.queues[target].items + [id], s.queues[target].maxSize)]
    else s.queues
  }

  lemma RequeueExact(s: Broker, id: string)
    requires id in s.msgs.vals
    ensures var (s', ok) := Requeue(s, id);
            var m := s.msgs.vals[id];
            && s'.cfg == s.cfg && s'.msgs == s.msgs && s'.dlq == s.dlq && s'.offsets == s.offsets
            && s'.counter == s.counter
            && ok == !Refused(s, m.target, m.body)
            && s'.queues == After(s, m.target, m.body, id)
  {
    hide CheckBody;
    BodyOutcome(s.cfg, s.msgs.vals[id].body);
  }

  /** NACK: an unknown id and a message that is not out to this consumer are errors and change nothing. Otherwise the
      delivery has failed: the message retries in its queue, or goes to the dead-letter store and into no queue. Only a
      retry that its queue refuses is answered with an error, after the record has changed. */
  lemma NackExact(s: Broker, id: string, consumer: string)
    ensures var (s', r) := Nack(s, id, consumer);
            if id !in s.msgs.vals then s' == s && r == Error(MessageNotFound)
            else
              var m := s.msgs.vals[id];
              if m.status != Delivered || m.deliveredTo != consumer then s' == s && r == Error(NotYourMessage)
              else
                var retry := m.retryCount < s.cfg.maxRetries;
                && s'.cfg == s.cfg && s'.msgs.keys == s.msgs.keys && s'.offsets == s.offsets && s'.counter == s.counter
                && s'.msgs.vals == s.msgs.vals[id := AfterFailure(s.cfg, m)]
                && s'.dlq == (if retry || id in s.dlq then s.dlq else s.dlq + [id])
                && s'.queues == (if retry then After(s, m.target, m.body, id) else s.queues)
                && r == if retry && Refused(s, m.target, m.body) then Error(InternalError) else Done
  {
    hide Requeue, Fail;
    if id in s.msgs.vals && s.msgs.vals[id].status == Delivered && s.msgs.vals[id].deliveredTo == consumer {
      FailShape(s, id);
      AfterFailureIs(s.cfg, s.msgs.vals[id]);
      RequeueExact(Fail(s, id), id);
    }
  }

  /** REPLAY: an id that is not a dead letter is an error; otherwise the message leaves the store, home again, PENDING
      and with no retries used, and joins its queue unless that is missing or refuses it. */
  lemma ReplayExact(s: Broker, id: string)
    ensures var (s', r) := Replay(s, id);
            if id !in s.dlq || id !in s.msgs.vals then s' == s && r == Error(MessageNotFound)
            else
              var m := s.msgs.vals[id];
              && s'.cfg == s.cfg && s'.msgs.keys == s.msgs.keys && s'.offsets == s.offsets && s'.counter == s.counter
              && s'.msgs.vals ==
                 s.msgs.vals[id := Freed(m).(target := m.originalTarget, originalTarget := "", retryCount := 0)]
              && s'.dlq == Remove(s.dlq, id)
              && s'.queues == After(s, m.originalTarget, m.body, id)
              && r == if Refused(s, m.originalTarget, m.body) then Error(InternalError) else Done
  {
    hide Requeue;
    if id in s.dlq && id in s.msgs.vals {
      RequeueExact(Unbury(s, id), id);
    }
  }

  // ---------- The ACK-timeout sweep ----------

  /** Out since `deliverTime`, for longer than the message's own timeout or, if it has none, the default. */
  predicate Late(cfg: Config, m: Msg, now: real) {
    && m.status == Delivered && m.deliverTime > 0.0
    && now > m.deliverTime + (if m.ackTimeout > 0 then m.ackTimeout as real else cfg.defaultAckTimeout)
  }

  lemma LateIsTimedOut(cfg: Config, m: Msg, now: real)
    ensures TimedOut(cfg, m, now) <==> Late(cfg, m, now)
  {
  }

  lemma {:induction false} CheckTimeoutsDead(s: Broker, n: nat, now: real, id: string)
    requires s.msgs.Valid() && n <= |s.msgs.keys|
    ensures id in CheckTimeouts(s, n, now).0.dlq <==>
            id in s.dlq ||
            (id in s.msgs.keys[..n] && id in s.msgs.vals && TimedOut(s.cfg, s.msgs.vals[id], now) &&
             s.msgs.vals[id].retryCount >= s.cfg.maxRetries)
  {
    hide TimedOut, FailedMsg, Fail, SameIds;
    if n > 0 {
      CheckTimeoutsDead(s, n - 1, now, id);
      CheckTimeoutsExact(s, n - 1, now);
      var s1 := CheckTimeouts(s, n - 1, now).0;
      var j := s.msgs.keys[n - 1];
      LatestKey(s.msgs, n);
      assert s.msgs.keys[..n] == s.msgs.keys[..n - 1] + [j];
      if Overdue(s, j, now) {
        FailShape(s1, j);
      }
    }
  }

  lemma {:induction false} RequeuePendingKeeps(s: Broker, ids: seq<string>)
    ensures var s' := RequeuePending(s, ids);
            s'.cfg == s.cfg && s'.msgs == s.msgs && s'.dlq == s.dlq && s'.offsets == s.offsets
    decreases ids
  {
    hide Requeue, SameIds;
    if ids != [] {
      if ids[0] in s.msgs.vals && s.msgs.vals[ids[0]].status == Pending {
        RequeueExact(s, ids[0]);
        RequeuePendingKeeps(Requeue(s, ids[0]).0, ids[1..]);
      } else {
        RequeuePendingKeeps(s, ids[1..]);
      }
    }
  }

  /** The ACK-timeout sweep: exactly the messages that are out for longer than their timeout count a failed delivery,
      once; every other record is unchanged, and the dead-letter store gains exactly those out of retries. */
  lemma SweepExact(s: Broker, now: real)
    requires s.msgs.Valid()
    ensures var s' := Sweep(s, now);
            && s'.cfg == s.cfg && s'.msgs.keys == s.msgs.keys && s'.offsets == s.offsets
            && (forall id :: id in s.msgs.vals ==>
                  var m := s.msgs.vals[id];
                  var limit := if m.ackTimeout > 0 then m.ackTimeout as real else s.cfg.defaultAckTimeout;
                  && id in s'.msgs.vals
                  && s'.msgs.vals[id] ==
                     if m.status != Delivered || m.deliverTime <= 0.0 || now - m.deliverTime <= limit then m
                     else if m.retryCount < s.cfg.maxRetries then
                       m.(retryCount := m.retryCount + 1, status := Pending, deliveredTo := "", deliverTime := 0.0)
                     else
                       m.(retryCount := m.retryCount + 1, originalTarget := m.target, target := "DLQ", status := Dead))
            && (forall id :: id in s'.dlq <==>
                  id in s.dlq ||
                  (id in s.msgs.vals && Late(s.cfg, s.msgs.vals[id], now) &&
                   s.msgs.vals[id].retryCount >= s.cfg.maxRetries))
  {
    hide CheckTimeouts, RequeuePending, TimedOut, FailedMsg, SameIds;
    var n := |s.msgs.keys|;
    assert s.msgs.keys[..n] == s.msgs.keys;
    CheckTimeoutsExact(s, n, now);
    var (s1, expired) := CheckTimeouts(s, n, now);
    RequeuePendingKeeps(s1, expired);
    forall id | id in s.msgs.vals
      ensures TimedOut(s.cfg, s.msgs.vals[id], now) <==> Late(s.cfg, s.msgs.vals[id], now)
      ensures FailedMsg(s.cfg, s.msgs.vals[id]) == AfterFailure(s.cfg, s.msgs.vals[id])
    {
      LateIsTimedOut(s.cfg, s.msgs.vals[id], now);
      AfterFailureIs(s.cfg, s.msgs.vals[id]);
    }
    forall id
      ensures id in s1.dlq <==>
              id in s.dlq ||
              (id in s.msgs.vals && Late(s.cfg, s.msgs.vals[id], now) &&
               s.msgs.vals[id].retryCount >= s.cfg.maxRetries)
    {
      CheckTimeoutsDead(s, n, now, id);
    }
    assert forall id :: id in s.msgs.vals ==> id in s.msgs.keys;
    SweepKeepsKeys(s, now);
  }

  lemma SweepKeepsKeys(s: Broker, now: real)
    ensures Sweep(s, now).msgs.keys == s.msgs.keys && Sweep(s, now).offsets == s.offsets
    ensures Sweep(s, now).cfg == s.cfg
  {
  }

  /** A message taken at `t` is failed by a sweep exactly when more than its timeout has passed since `t`. */
  lemma ConsumedThenSwept(s: Broker, queue: string, consumer: string, t: real, now: real)
    requires s.msgs.Valid() && t > 0.0 && Consume(s, queue, consumer, t).1.Got?
    ensures var (s1, r) := Consume(s, queue, consumer, t);
            var s2 := Sweep(s1, now);
            && r.id in s.msgs.vals && r.id in s1.msgs.vals && r.id in s2.msgs.vals
            && var m := s.msgs.vals[r.id];
               var limit := if m.ackTimeout > 0 then m.ackTimeout as real else s.cfg.defaultAckTimeout;
               && (now - t <= limit ==> s2.msgs.vals[r.id] == s1.msgs.vals[r.id])
               && (now - t > limit ==> s2.msgs.vals[r.id].retryCount == m.retryCount + 1)
  {
    hide Consume, Sweep;
    var k := ConsumeExact(s, queue, consumer, t);
    var (s1, r) := Consume(s, queue, consumer, t);
    assert s1.msgs.Valid();
    SweepExact(s1, now);
  }

  // ---------- The TTL sweep ----------

  lemma {:induction false} CheckTtlRecords(s: Broker, n: nat, now: real, id: string)
    requires s.msgs.Valid() && n <= |s.msgs.keys| && id in s.msgs.vals
    ensures var s1 := CheckTtl(s, n, now);
            && s1.cfg == s.cfg && s1.queues == s.queues
            && id in s1.msgs.vals
            && if id in s.msgs.keys[..n] && TtlExpired(s.cfg, s.msgs.vals[id], now)
               then s1.msgs.vals[id] == Aged(s.msgs.vals[id]) && id in s1.dlq
               else s1.msgs.vals[id] == s.msgs.vals[id] && (id in s1.dlq <==> id in s.dlq)
  {
    hide TtlExpired, Aged, Expire, SameIds;
    if n > 0 {
      CheckTtlRecords(s, n - 1, now, id);
      var s1 := CheckTtl(s, n - 1, now);
      var j := s.msgs.keys[n - 1];
      LatestKey(s.msgs, n);
      assert s.msgs.keys[..n] == s.msgs.keys[..n - 1] + [j];
      CheckTtlOthers(s, n - 1, now, j);
      ExpireShape(s1, j);
    }
  }

  /** PENDING or out, with a TTL, and older than it. */
  predicate Outlived(cfg: Config, m: Msg, now: real) {
    var ttl := if m.ttl > 0 then m.ttl else cfg.defaultTtl;
    (m.status == Pending || m.status == Delivered) && ttl >= 0 && now - m.timestamp as real > ttl as real
  }

  lemma OutlivedIsExpired(cfg: Config, m: Msg, now: real)
    ensures TtlExpired(cfg, m, now) <==> Outlived(cfg, m, now)
  {
  }

  /** The TTL sweep: a record becomes a dead letter, its old target remembered, exactly when it is PENDING or DELIVERED
      and older than its TTL, its own if that is positive, else the default, if that is not negative. Every other record
      is unchanged, acknowledged, dead and younger ones included, and no queue changes. */
  lemma TtlSweepExact(s: Broker, now: real)
    requires s.msgs.Valid()
    ensures var s' := TtlSweep(s, now);
            && s'.cfg == s.cfg && s'.queues == s.queues && s'.msgs.keys == s.msgs.keys
            && (forall id :: id in s.msgs.vals ==>
                  var m := s.msgs.vals[id];
                  var ttl := if m.ttl > 0 then m.ttl else s.cfg.defaultTtl;
                  && id in s'.msgs.vals
                  && if (m.status == Pending || m.status == Delivered) && ttl >= 0 &&
                        now - m.timestamp as real > ttl as real
                     then
                       && s'.msgs.vals[id] == m.(originalTarget := m.target, target := "DLQ", status := Dead)
                       && id in s'.dlq
                     else s'.msgs.vals[id] == m && (id in s'.dlq <==> id in s.dlq))
  {
    hide CheckTtl, TtlExpired;
    var n := |s.msgs.keys|;
    assert s.msgs.keys[..n] == s.msgs.keys;
    forall id | id in s.msgs.vals
      ensures id in TtlSweep(s, now).msgs.vals
      ensures if Outlived(s.cfg, s.msgs.vals[id], now)
              then TtlSweep(s, now).msgs.vals[id] == Aged(s.msgs.vals[id]) && id in TtlSweep(s, now).dlq
              else TtlSweep(s, now).msgs.vals[id] == s.msgs.vals[id] &&
                   (id in TtlSweep(s, now).dlq <==> id in s.dlq)
    {
      assert id in s.msgs.keys;
      OutlivedIsExpired(s.cfg, s.msgs.vals[id], now);
      CheckTtlRecords(s, n, now, id);
    }
    TtlSweepKeepsKeys(s, now);
    CheckTtlQueues(s, n, now);
  }

  lemma {:induction false} CheckTtlQueues(s: Broker, n: nat, now: real)
    requires n <= |s.msgs.keys|
    ensures CheckTtl(s, n, now).queues == s.queues && CheckTtl(s, n, now).cfg == s.cfg
  {
    hide TtlExpired, SameIds;
    if n > 0 {
      CheckTtlQueues(s, n - 1, now);
    }
  }

  lemma TtlSweepKeepsKeys(s: Broker, now: real)
    ensures TtlSweep(s, now).msgs.keys == s.msgs.keys
  {
  }

  /** A message just sent is buried by a TTL sweep exactly when more than the default TTL has passed since. */
  lemma SentThenExpired(s: Broker, queue: string, body: string, ms: nat, seconds: int, now: real)
    requires s.msgs.Valid() && MakeId(ms, s.counter + 1) !in s.msgs.vals
    requires Send(s, queue, body, ms, seconds).1.NewId?
    ensures var (s1, r) := Send(s, queue, body, ms, seconds);
            var s2 := TtlSweep(s1, now);
            && r.id in s2.msgs.vals
            && (s2.msgs.vals[r.id].status == Dead <==>
                  s.cfg.defaultTtl >= 0 && now - seconds as real > s.cfg.defaultTtl as real)
  {
    hide MakeId, Send, TtlSweep, EncodeText;
    SendExact(s, queue, body, ms, seconds);
    var s1 := Send(s, queue, body, ms, seconds).0;
    assert s1.msgs == s.msgs.Put(MakeId(ms, s.counter + 1), s1.msgs.vals[MakeId(ms, s.counter + 1)]);
    TtlSweepExact(s1, now);
  }

  // ---------- Hand-back ----------

  /** Hand-back: exactly the messages out to the consumer, in registry order up to and including the first its queue
      refuses, are released; every other record is unchanged. */
  lemma HandBackExact(s: Broker, consumer: string)
    requires s.msgs.Valid()
    ensures var held := Among(s.msgs.keys, Held(s, consumer));
            var s' := HandBack(s, consumer);
            && (forall id :: id in held <==>
                  id in s.msgs.vals && s.msgs.vals[id].status == Delivered && s.msgs.vals[id].deliveredTo == consumer)
            && s'.cfg == s.cfg && s'.dlq == s.dlq && s'.msgs.vals.Keys == s.msgs.vals.Keys
            && var released := held[..Min(Passed(s.queues, Entries(s, held)) + 1, |held|)];
               forall id :: id in s.msgs.vals ==>
                 var m := s.msgs.vals[id];
                 s'.msgs.vals[id] ==
                 if id in released then m.(status := Pending, deliveredTo := "", deliverTime := 0.0) else m
  {
    hide HandBackEach, Passed, JoinedBy, Among, CheckBody;
    AmongExact(s.msgs.keys, Held(s, consumer));
    HandBackEachOutcome(s, s.msgs.keys, consumer, Held(s, consumer));
  }

  // ---------- Topics ----------

  /** Topic consumption: the registered ids with this target, in string order; the one at the consumer's offset is
      returned with its own body and the offset moves one on; at the end nothing happens. */
  lemma FetchExact(s: Broker, topic: string, consumer: string) returns (ids: seq<string>)
    ensures Sorted(ids) && forall id :: id in ids <==> id in s.msgs.vals && s.msgs.vals[id].target == topic
    ensures var (s', r) := FetchTopic(s, topic, consumer);
            var key := topic + ":" + consumer;
            var offset := if key in s.offsets then s.offsets[key] else 0;
            if offset < |ids| then
              && ids[offset] in ids
              && r == Got(ids[offset], s.msgs.vals[ids[offset]].body)
              && s' == s.(offsets := s.offsets[key := offset + 1])
            else r == Nothing && s' == s
  {
    ids := TopicIds(s, topic);
    if OffsetOf(s, topic, consumer) < |ids| {
      assert ids[OffsetOf(s, topic, consumer)] in ids;
    }
  }

  /** SET_OFFSET. */
  lemma SetOffsetExact(s: Broker, topic: string, consumer: string, offset: int)
    ensures var (s', r) := SetOffset(s, topic, consumer, offset);
            if offset < 0 then s' == s && r == Error(InvalidOffset)
            else r == Done && s' == s.(offsets := s.offsets[topic + ":" + consumer := offset])
  {
  }

  // ---------- Where a body comes from ----------

  /** `c` registers `id` with this body. */
  predicate Introduces(s: Broker, c: Command, id: string, body: string) {
    match c
    case SendCmd(_, b, ms, _) => b == body && id == MakeId(ms, s.counter + 1)
    case PublishCmd(_, topicExists, b, ms, _) => topicExists && b == body && id == MakeId(ms, s.counter + 1)
    case RestoreCmd(i, _, b, _, _, _) => i == id && b == body
    case _ => false
  }

  ghost predicate Introduced(cfg: Config, cs: seq<Command>, id: string, body: string) {
    exists n :: 0 <= n < |cs| && Introduces(Run(Start(cfg), cs[..n]), cs[n], id, body)
  }

  lemma StepIntroduces(s: Broker, c: Command, id: string)
    requires Inv(s) && Enabled(s, c) && id in Step(s, c).msgs.vals
    ensures if id in s.msgs.vals then Step(s, c).msgs.vals[id].body == s.msgs.vals[id].body
            else Introduces(s, c, id, Step(s, c).msgs.vals[id].body)
  {
    if id in s.msgs.vals {
      KeepsBody(s, c, id);
    } else {
      NewBody(s, c, id);
    }
  }

  lemma KeepsBody(s: Broker, c: Command, id: string)
    requires Inv(s) && Enabled(s, c) && id in s.msgs.vals
    ensures id in Step(s, c).msgs.vals && Step(s, c).msgs.vals[id].body == s.msgs.vals[id].body
  {
    hide Inv, Step, Enabled, Frozen, SameMessage, Home;
    StepGood(s, c);
  }

  lemma NewBody(s: Broker, c: Command, id: string)
    requires Inv(s) && Enabled(s, c) && id !in s.msgs.vals && id in Step(s, c).msgs.vals
    ensures Introduces(s, c, id, Step(s, c).msgs.vals[id].body)
  {
    hide Inv, MakeId, CheckBody, Send, Consume, Ack, AckBatch, Nack, Sweep, HandBack, Replay, ReplayAll, FetchTopic,
      CreateQueue, DeleteQueue, SetOffset, EncodeText;
    RegistryValid(s);
    StepRegisters(s, c);
    if c.SendCmd? {
      SendExact(s, c.queue, c.body, c.ms, c.seconds);
    }
  }

  lemma {:induction false} BodiesAreIntroduced(cfg: Config, cs: seq<Command>, id: string)
    requires LegalRun(cfg, cs) && id in Run(Start(cfg), cs).msgs.vals
    ensures Introduced(cfg, cs, id, Run(Start(cfg), cs).msgs.vals[id].body)
  {
    hide Step, Enabled, Inv, Introduces;
    if cs != [] {
      var n := |cs| - 1;
      var s := Run(Start(cfg), cs[..n]);
      EnabledLast(Start(cfg), cs);
      ReachableInv(cfg, cs[..n]);
      StepIntroduces(s, cs[n], id);
      if id in s.msgs.vals {
        BodiesAreIntroduced(cfg, cs[..n], id);
        var k :| 0 <= k < n && Introduces(Run(Start(cfg), cs[..n][..k]), cs[..n][k], id, s.msgs.vals[id].body);
        assert cs[..n][..k] == cs[..k];
      }
    }
  }

  /** Whatever CONSUME hands out is the body that was sent, published or restored under that id. */
  lemma ConsumedBodyWasSent(cfg: Config, cs: seq<Command>, queue: string, consumer: string, now: real)
    requires LegalRun(cfg, cs) && Consume(Run(Start(cfg), cs), queue, consumer, now).1.Got?
    ensures var r := Consume(Run(Start(cfg), cs), queue, consumer, now).1; Introduced(cfg, cs, r.id, r.body)
  {
    hide Run, EnabledRun, Consume, Introduced;
    var k := ConsumeExact(Run(Start(cfg), cs), queue, consumer, now);
    var r := Consume(Run(Start(cfg), cs), queue, consumer, now).1;
    BodiesAreIntroduced(cfg, cs, r.id);
  }
}
