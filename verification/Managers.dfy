/** The classes of `src/models.py`, `src/queue_manager.py` and `src/ack_manager.py` over shared, mutable messages.
    Methods that touch several objects take the abstract state as a ghost argument and are proved to take it where
    `Lifecycle` says. */
module Managers {

  import opened Common
  import opened Dicts
  import opened Lifecycle
  import opened LifecycleRecords
  import opened LifecycleRuns
  import opened Requeueing
  import opened DeadLetters

  class Message {
    const id: string
    const body: string
    const timestamp: int
    const ttl: int
    const ackTimeout: int
    var target: string
    var status: Status
    var retryCount: int
    var deliveredTo: string
    var deliverTime: real
    var originalTarget: string

    ghost function Abs(): Msg
      reads this
    {
      Msg(id, target, body, timestamp, ttl, ackTimeout, status, retryCount, deliveredTo, deliverTime, originalTarget)
    }

    constructor (id: string, target: string, body: string, timestamp: int, ttl: int, ackTimeout: int)
      ensures Abs() == NewMsg(id, target, body, timestamp, ttl, ackTimeout)
      ensures this.id == id
    {
      this.id, this.target, this.body := id, target, body;
      this.timestamp, this.ttl, this.ackTimeout := timestamp, ttl, ackTimeout;
      status, retryCount, deliveredTo, deliverTime, originalTarget := Pending, 0, "", 0.0, "";
    }
  }

  type Registry = Dict<string, Message>

  /** The shared messages are the abstract ones: same ids in the same order, same fields, and the dead-letter store
      holds the registry's own objects. */
  ghost predicate Tracks(s: Broker, messages: Registry, dlq: Registry)
    reads messages.vals.Values
  {
    && messages.Valid() && dlq.Valid()
    && s.msgs.keys == messages.keys && s.msgs.vals.Keys == messages.vals.Keys
    && (forall id :: id in messages.vals ==>
          messages.vals[id].id == id && s.msgs.vals[id] == messages.vals[id].Abs())
    && s.dlq == dlq.keys
    && (forall id :: id in dlq.vals ==> id in messages.vals && dlq.vals[id] == messages.vals[id])
  }

  /** The dead-letter store `dlq` lists `ids` and holds the registry's own objects. */
  ghost predicate DlqTracks(ids: seq<string>, messages: Registry, dlq: Registry) {
    && dlq.Valid() && ids == dlq.keys
    && (forall id :: id in dlq.vals ==> id in messages.vals && dlq.vals[id] == messages.vals[id])
  }

  /** Everything but the message `id` is still as `s` has it. */
  ghost predicate TracksOthers(s: Broker, messages: Registry, id: string)
    requires id in messages.vals
    reads messages.vals.Values - {messages.vals[id]}
  {
    && messages.Valid()
    && s.msgs.keys == messages.keys && s.msgs.vals.Keys == messages.vals.Keys
    && (forall j :: j in messages.vals ==> messages.vals[j].id == j)
    && (forall j :: j in messages.vals && j != id ==> s.msgs.vals[j] == messages.vals[j].Abs())
  }

  /** When only the message `id` was written, tracking carries over to the state with its new fields. */
  lemma Retrack(s: Broker, s': Broker, messages: Registry, dlq: Registry, id: string)
    requires id in messages.vals && TracksOthers(s, messages, id)
    requires s'.msgs.keys == s.msgs.keys && s'.msgs.vals == s.msgs.vals[id := messages.vals[id].Abs()]
    requires DlqTracks(s'.dlq, messages, dlq)
    ensures Tracks(s', messages, dlq)
  {
  }

  /** Tracking looks at registry and dead-letter list only. */
  lemma SameMsgsTracks(s: Broker, s': Broker, messages: Registry, dlq: Registry)
    requires Tracks(s, messages, dlq) && s'.msgs == s.msgs && s'.dlq == s.dlq
    ensures Tracks(s', messages, dlq)
  {
  }

  /** A new object under a new id. */
  lemma TrackNew(s: Broker, messages: Registry, dlq: Registry, msg: Message)
    requires Tracks(s, messages, dlq) && msg.id !in s.msgs.vals
    ensures Tracks(Register(s, msg.Abs()), messages.Put(msg.id, msg), dlq)
    ensures messages.Valid() && msg.id !in messages.vals && s.msgs.Valid()
  {
  }

  lemma TracksLookup(s: Broker, messages: Registry, dlq: Registry)
    requires Tracks(s, messages, dlq)
    ensures forall id :: messages.Has(id) <==> id in s.msgs.vals
    ensures forall id :: id in messages.vals ==>
              messages.vals[id].id == id && s.msgs.vals[id] == messages.vals[id].Abs()
  {
  }

  /** What tracking says about one message. */
  lemma TracksOne(s: Broker, messages: Registry, dlq: Registry, id: string)
    requires Tracks(s, messages, dlq) && id in messages.vals
    ensures id in s.msgs.vals && messages.vals[id].id == id && s.msgs.vals[id] == messages.vals[id].Abs()
    ensures TracksOthers(s, messages, id)
    ensures DlqTracks(s.dlq, messages, dlq)
  {
  }

  lemma DlqLookup(s: Broker, messages: Registry, dlq: Registry, id: string)
    requires Tracks(s, messages, dlq)
    ensures NoDup(s.dlq)
    ensures dlq.Has(id) <==> id in s.dlq
    ensures id in s.dlq ==> id in dlq.vals && id in messages.vals && dlq.vals[id] == messages.vals[id]
  {
  }

  lemma TracksBasics(s: Broker, messages: Registry, dlq: Registry)
    requires Tracks(s, messages, dlq)
    ensures s.msgs.keys == messages.keys
    ensures forall i :: 0 <= i < |messages.keys| ==>
              && messages.keys[i] in messages.vals && messages.keys[i] in s.msgs.vals
              && messages.vals[messages.keys[i]].id == messages.keys[i]
  {
    assert forall i :: 0 <= i < |messages.keys| ==> messages.keys[i] in messages.keys;
  }

  lemma RegistryIsValid(s: Broker, messages: Registry, dlq: Registry)
    requires Tracks(s, messages, dlq)
    ensures messages.Valid() && s.msgs.Valid() && s.msgs.vals.Keys == messages.vals.Keys
  {
  }

  lemma DlqPut(ids: seq<string>, messages: Registry, dlq: Registry, id: string)
    requires DlqTracks(ids, messages, dlq) && id in messages.vals
    ensures DlqTracks(if id in ids then ids else ids + [id], messages, dlq.Put(id, messages.vals[id]))
  {
  }

  lemma DlqPop(ids: seq<string>, messages: Registry, dlq: Registry, id: string)
    requires DlqTracks(ids, messages, dlq)
    ensures DlqTracks(Remove(ids, id), messages, dlq.Pop(id))
  {
    PopValid(dlq, id);
  }

  // ---------- Queues ----------

  class QueueManager {
    const cfg: Config
    var queues: map<string, Queue>

    constructor (cfg: Config)
      ensures this.cfg == cfg && queues == map[]
    {
      this.cfg := cfg;
      queues := map[];
    }

    method CreateQueue(name: string, size: Option<int>) returns (r: Reply)
      modifies this
      ensures r == if !ValidName(name) then Error(InvalidName)
                   else if name in old(queues) then Error(QueueExists) else Done
      ensures queues ==
              if r != Done then old(queues)
              else
                old(queues)[name := Queue([], if size.Some? && size.value > 0 then size.value else cfg.defaultMaxSize)]
    {
      if !ValidName(name) {
        return Error(InvalidName);
      }
      var maxSize := if size.None? then cfg.defaultMaxSize else size.value;
      if maxSize <= 0 {
        maxSize := cfg.defaultMaxSize;
      }
      if name in queues {
        return Error(QueueExists);
      }
      queues := queues[name := Queue([], maxSize)];
      r := Done;
    }

    method DeleteQueue(name: string) returns (r: Reply)
      modifies this
      ensures r == if name !in old(queues) then Error(QueueNotFound)
                   else if old(queues)[name].items != [] then Error(QueueNotEmpty) else Done
      ensures queues == if r == Done then old(queues) - {name} else old(queues)
    {
      if name !in queues {
        return Error(QueueNotFound);
      }
      if queues[name].items != [] {
        return Error(QueueNotEmpty);
      }
      queues := queues - {name};
      r := Done;
    }

    method Enqueue(queue: string, id: string, body: string) returns (r: Result<(), ErrorCode>)
      modifies this
      ensures r == match CheckBody(cfg, body)
                   case Err(e) => Err(e)
                   case Ok(_) =>
                     if queue !in old(queues) then Err(QueueNotFound)
                     else if |old(queues)[queue].items| >= old(queues)[queue].maxSize then Err(QueueFull)
                     else Ok(())
      ensures r.Err? ==> queues == old(queues)
      ensures r.Ok? ==>
                queues == old(queues)[queue := old(queues)[queue].(items := old(queues)[queue].items + [id])]
    {
      var _ :- CheckBody(cfg, body);
      if queue !in queues {
        return Err(QueueNotFound);
      }
      var q := queues[queue];
      if |q.items| >= q.maxSize {
        return Err(QueueFull);
      }
      queues := queues[queue := q.(items := q.items + [id])];
      r := Ok(());
    }

    method Dequeue(queue: string) returns (r: Result<Option<string>, ErrorCode>)
      modifies this
      ensures queue !in old(queues) ==> r == Err(QueueNotFound) && queues == old(queues)
      ensures queue in old(queues) && old(queues)[queue].items == [] ==> r == Ok(None) && queues == old(queues)
      ensures queue in old(queues) && old(queues)[queue].items != [] ==>
                && r == Ok(Some(old(queues)[queue].items[0]))
                && queues == old(queues)[queue := old(queues)[queue].(items := old(queues)[queue].items[1..])]
    {
      if queue !in queues {
        return Err(QueueNotFound);
      }
      var q := queues[queue];
      if q.items == [] {
        return Ok(None);
      }
      queues := queues[queue := q.(items := q.items[1..])];
      r := Ok(Some(q.items[0]));
    }
  }

  // ---------- Acknowledgement, retries, dead letters ----------

  class AckManager {
    const cfg: Config
    var dlq: Registry

    constructor (cfg: Config)
      ensures this.cfg == cfg && dlq == Empty()
    {
      this.cfg := cfg;
      dlq := Empty();
    }

    method Ack(msg: Message, consumer: string) returns (r: AckResult)
      modifies msg
      ensures r == AckCheck(old(msg.Abs()), consumer)
      ensures msg.Abs() == if r == AckOk then old(msg.Abs()).(status := Acked) else old(msg.Abs())
    {
      if msg.status != Delivered {
        return if msg.status == Acked then AckOk else NotDelivered;
      }
      if msg.deliveredTo != consumer {
        return WrongConsumer;
      }
      msg.status := Acked;
      r := AckOk;
    }

    method MoveToDlq(msg: Message)
      modifies this, msg
      ensures msg.Abs() == Aged(old(msg.Abs()))
      ensures dlq == old(dlq).Put(msg.id, msg)
    {
      msg.originalTarget := msg.target;
      msg.target := DLQ;
      msg.status := Dead;
      dlq := dlq.Put(msg.id, msg);
    }

    /** The part `nack` and `check_timeouts` share: one more retry, or the dead-letter store. */
    method CountFailure(msg: Message)
      modifies this, msg
      ensures msg.Abs() == FailedMsg(cfg, old(msg.Abs()))
      ensures dlq == if old(msg.retryCount) < cfg.maxRetries then old(dlq) else old(dlq).Put(msg.id, msg)
    {
      msg.retryCount := msg.retryCount + 1;
      if msg.retryCount > cfg.maxRetries {
        MoveToDlq(msg);
      } else {
        msg.status := Pending;
        msg.deliveredTo := "";
        msg.deliverTime := 0.0;
      }
    }

    method FailDelivery(msg: Message, ghost s: Broker, messages: Registry)
      requires Tracks(s, messages, dlq) && s.cfg == cfg && msg.id in messages.vals && messages.vals[msg.id] == msg
      modifies this, msg
      ensures Tracks(Fail(s, msg.id), messages, dlq)
    {
      hide Fail, FailedMsg, Tracks, TracksOthers, DlqTracks;
      ghost var id := msg.id;
      TracksOne(s, messages, dlq, id);
      FailShape(s, id);
      DlqPut(s.dlq, messages, dlq, id);
      CountFailure(msg);
      assert Fail(s, id).msgs.vals == s.msgs.vals[id := messages.vals[id].Abs()];
      assert DlqTracks(Fail(s, id).dlq, messages, dlq);
      Retrack(s, Fail(s, id), messages, dlq, id);
    }

    method Nack(msg: Message, consumer: string, ghost s: Broker, messages: Registry) returns (ok: bool)
      requires Tracks(s, messages, dlq) && s.cfg == cfg && msg.id in messages.vals && messages.vals[msg.id] == msg
      modifies this, msg
      ensures ok == (old(msg.status) == Delivered && old(msg.deliveredTo) == consumer)
      ensures Tracks(if ok then Fail(s, msg.id) else s, messages, dlq)
    {
      if msg.status != Delivered || msg.deliveredTo != consumer {
        return false;
      }
      FailDelivery(msg, s, messages);
      ok := true;
    }

    /** One turn of the timeout sweep. */
    method CheckTimeout(msg: Message, now: real, ghost s: Broker, messages: Registry) returns (expired: bool)
      requires Tracks(s, messages, dlq) && s.cfg == cfg && msg.id in messages.vals && messages.vals[msg.id] == msg
      modifies this, msg
      ensures var id := msg.id;
              if TimedOut(s.cfg, s.msgs.vals[id], now)
              then Tracks(Fail(s, id), messages, dlq) && (expired <==> Fail(s, id).msgs.vals[id].status == Pending)
              else Tracks(s, messages, dlq) && !expired
    {
      hide Fail;
      expired := false;
      if msg.status == Delivered && msg.deliverTime > 0.0 {
        var timeout := if msg.ackTimeout > 0 then msg.ackTimeout as real else cfg.defaultAckTimeout;
        if now - msg.deliverTime > timeout {
          FailDelivery(msg, s, messages);
          expired := msg.status == Pending;
        }
      }
    }

    method CheckTimeouts(messages: Registry, now: real, ghost s: Broker) returns (expired: seq<string>)
      requires Tracks(s, messages, dlq) && s.cfg == cfg
      modifies this, messages.vals.Values
      ensures Tracks(Lifecycle.CheckTimeouts(s, |messages.keys|, now).0, messages, dlq)
      ensures expired == Lifecycle.CheckTimeouts(s, |messages.keys|, now).1
    {
      hide Fail, Tracks, TimedOut, SameIds;
      expired := [];
      var i := 0;
      TracksBasics(s, messages, dlq);
      while i < |messages.keys|
        invariant 0 <= i <= |messages.keys|
        invariant Tracks(Lifecycle.CheckTimeouts(s, i, now).0, messages, dlq)
        invariant Lifecycle.CheckTimeouts(s, i, now).0.cfg == cfg
        invariant expired == Lifecycle.CheckTimeouts(s, i, now).1
      {
        ghost var cur := Lifecycle.CheckTimeouts(s, i, now).0;
        var id := messages.keys[i];
        TracksBasics(cur, messages, dlq);
        var msg := messages.vals[id];
        FailShape(cur, id);
        var again := CheckTimeout(msg, now, cur, messages);
        if again {
          expired := expired + [id];
        }
        i := i + 1;
      }
    }

    method CheckTtl(messages: Registry, now: real, ghost s: Broker) returns (expired: seq<string>)
      requires Tracks(s, messages, dlq) && s.cfg == cfg
      modifies this, messages.vals.Values
      ensures Tracks(TtlSweep(s, now), messages, dlq)
      ensures expired == Among(s.msgs.keys, Lapsed(s, now))
    {
      hide Expire, Tracks, TtlExpired, SameIds, Among, Lapsed, DeadLetters.CheckTtl;
      expired := [];
      var i := 0;
      TracksBasics(s, messages, dlq);
      RegistryIsValid(s, messages, dlq);
      AmongLast(s.msgs.keys, 0, Lapsed(s, now));
      CheckTtlNone(s, now);
      while i < |messages.keys|
        invariant 0 <= i <= |messages.keys|
        invariant Tracks(DeadLetters.CheckTtl(s, i, now), messages, dlq)
        invariant DeadLetters.CheckTtl(s, i, now).cfg == cfg
        invariant expired == Among(s.msgs.keys[..i], Lapsed(s, now))
      {
        ghost var cur := DeadLetters.CheckTtl(s, i, now);
        var id := messages.keys[i];
        TracksBasics(cur, messages, dlq);
        ExpireShape(cur, id);
        CheckTtlStep(s, i, now);
        var lapsed := CheckAge(messages.vals[id], now, cur, messages);
        if lapsed {
          expired := expired + [id];
        }
        i := i + 1;
      }
      assert s.msgs.keys[..i] == s.msgs.keys;
    }

    /** One turn of the TTL sweep. */
    method CheckAge(msg: Message, now: real, ghost s: Broker, messages: Registry) returns (expired: bool)
      requires Tracks(s, messages, dlq) && s.cfg == cfg && msg.id in messages.vals && messages.vals[msg.id] == msg
      modifies this, msg
      ensures expired == TtlExpired(s.cfg, s.msgs.vals[msg.id], now)
      ensures Tracks(if expired then Expire(s, msg.id) else s, messages, dlq)
    {
      hide Expire;
      expired := false;
      if msg.status == Pending || msg.status == Delivered {
        var ttl := if msg.ttl > 0 then msg.ttl else cfg.defaultTtl;
        if ttl >= 0 && now - msg.timestamp as real > ttl as real {
          ExpireMessage(msg, s, messages);
          expired := true;
        }
      }
    }

    method ExpireAndBury(msg: Message)
      modifies this, msg
      ensures msg.Abs() == Aged(old(msg.Abs()))
      ensures dlq == old(dlq).Put(msg.id, msg)
    {
      msg.status := Expired;
      MoveToDlq(msg);
    }

    method ExpireMessage(msg: Message, ghost s: Broker, messages: Registry)
      requires Tracks(s, messages, dlq) && s.cfg == cfg && msg.id in messages.vals && messages.vals[msg.id] == msg
      modifies this, msg
      ensures Tracks(Expire(s, msg.id), messages, dlq) && Expire(s, msg.id).cfg == cfg
    {
      hide Expire, Aged, Tracks, TracksOthers, DlqTracks;
      ghost var id := msg.id;
      TracksOne(s, messages, dlq, id);
      ExpireShape(s, id);
      DlqPut(s.dlq, messages, dlq, id);
      ExpireAndBury(msg);
      assert Expire(s, id).msgs.vals == s.msgs.vals[id := messages.vals[id].Abs()];
      Retrack(s, Expire(s, id), messages, dlq, id);
    }

    method Revive(msg: Message)
      modifies msg
      ensures msg.Abs() == Revived(old(msg.Abs()))
    {
      msg.target := msg.originalTarget;
      msg.originalTarget := "";
      msg.status := Pending;
      msg.retryCount := 0;
      msg.deliveredTo := "";
      msg.deliverTime := 0.0;
    }

    method ReplayFromDlq(id: string, ghost s: Broker, messages: Registry) returns (r: Option<Message>)
      requires Tracks(s, messages, dlq)
      modifies this, messages.vals.Values
      ensures r.Some? <==> id in s.dlq
      ensures r.None? ==> Tracks(s, messages, dlq)
      ensures r.Some? ==> id in messages.vals && r.value == messages.vals[id] && Tracks(Unbury(s, id), messages, dlq)
    {
      hide Unbury, Revived, Remove, Tracks, TracksOthers, DlqTracks;
      DlqLookup(s, messages, dlq, id);
      if !dlq.Has(id) {
        return None;
      }
      var msg := dlq.vals[id];
      TracksOne(s, messages, dlq, id);
      UnburyShape(s, id);
      DlqPop(s.dlq, messages, dlq, id);
      dlq := dlq.Pop(id);
      Revive(msg);
      assert Unbury(s, id).msgs.vals == s.msgs.vals[id := messages.vals[id].Abs()];
      Retrack(s, Unbury(s, id), messages, dlq, id);
      r := Some(msg);
    }

    /** The dead letters that came from `target`, in store order. */
    method SelectDead(target: string, ghost s: Broker, messages: Registry) returns (ids: seq<string>)
      requires Tracks(s, messages, dlq)
      ensures ids == DeadFrom(s, s.dlq, target)
    {
      hide Tracks;
      ids := [];
      var i := 0;
      DlqBasics(s, messages, dlq);
      while i < |dlq.keys|
        invariant 0 <= i <= |dlq.keys|
        invariant ids + DeadFrom(s, dlq.keys[i..], target) == DeadFrom(s, dlq.keys, target)
      {
        var id := dlq.keys[i];
        assert dlq.keys[i..][0] == id && dlq.keys[i..][1..] == dlq.keys[i + 1..];
        if dlq.vals[id].originalTarget == target {
          ids := ids + [id];
        }
        i := i + 1;
      }
      assert dlq.keys[i..] == [];
    }

    method ReplayAllFromDlq(target: string, ghost s: Broker, messages: Registry) returns (ids: seq<string>)
      requires Tracks(s, messages, dlq)
      modifies this, messages.vals.Values
      ensures ids == DeadFrom(s, s.dlq, target)
      ensures Tracks(UnburyEach(s, ids, |ids|), messages, dlq)
    {
      hide Tracks, TracksOthers, DlqTracks, Unbury, DeadFrom, SameIds, Remove;
      ids := SelectDead(target, s, messages);
      SelectedInDlq(s, messages, dlq, target);
      var i := 0;
      while i < |ids|
        invariant 0 <= i <= |ids|
        invariant Tracks(UnburyEach(s, ids, i), messages, dlq)
        invariant forall j :: i <= j < |ids| ==> ids[j] in UnburyEach(s, ids, i).dlq && ids[j] in messages.vals
      {
        ghost var cur := UnburyEach(s, ids, i);
        DlqLookup(cur, messages, dlq, ids[i]);
        TracksOne(cur, messages, dlq, ids[i]);
        UnburyShape(cur, ids[i]);
        RestStaysDead(cur.dlq, ids, i);
        assert ids[i] in cur.msgs.vals && UnburyEach(s, ids, i + 1) == Unbury(cur, ids[i]);
        var _ := ReplayFromDlq(ids[i], cur, messages);
        i := i + 1;
      }
    }
  }

  lemma DlqBasics(s: Broker, messages: Registry, dlq: Registry)
    requires Tracks(s, messages, dlq)
    ensures s.dlq == dlq.keys
    ensures forall i :: 0 <= i < |dlq.keys| ==>
              && dlq.keys[i] in dlq.vals && dlq.keys[i] in s.msgs.vals
              && s.msgs.vals[dlq.keys[i]] == dlq.vals[dlq.keys[i]].Abs()
  {
    assert forall i :: 0 <= i < |dlq.keys| ==> dlq.keys[i] in dlq.keys;
  }

  lemma SelectedInDlq(s: Broker, messages: Registry, dlq: Registry, target: string)
    requires Tracks(s, messages, dlq)
    ensures var ids := DeadFrom(s, s.dlq, target);
            NoDup(ids) && forall j :: 0 <= j < |ids| ==> ids[j] in s.dlq && ids[j] in messages.vals
  {
    forall id | id in s.dlq
      ensures id in s.msgs.vals
    {
      DlqLookup(s, messages, dlq, id);
    }
    DeadFromExact(s, s.dlq, target);
    var ids := DeadFrom(s, s.dlq, target);
    assert forall j :: 0 <= j < |ids| ==> ids[j] in ids;
  }

  lemma RestStaysDead(dlq: seq<string>, ids: seq<string>, i: nat)
    requires i < |ids| && NoDup(ids) && NoDup(dlq)
    requires forall j :: i <= j < |ids| ==> ids[j] in dlq
    ensures forall j :: i < j < |ids| ==> ids[j] in Remove(dlq, ids[i])
  {
    RemoveNoDup(dlq, ids[i]);
  }
}
