/** REPLAY_ALL in full, and the TTL sweep: exactly when it keeps every message in one place. */
module DeadLetters {

  import opened Common
  import opened Dicts
  import opened Lifecycle
  import opened LifecycleRecords
  import opened LifecycleInvariant
  import opened LifecycleRuns
  import opened Requeueing

  // ---------- REPLAY_ALL ----------

  /** `s` without the elements of `drop`, in order. */
  function Without(s: seq<string>, drop: seq<string>): seq<string> {
    if s == [] then []
    else if s[0] in drop then Without(s[1..], drop)
    else [s[0]] + Without(s[1..], drop)
  }

  lemma {:induction false} WithoutNothing(s: seq<string>)
    ensures Without(s, []) == s
  {
    if s != [] {
      WithoutNothing(s[1..]);
      assert s == [s[0]] + s[1..];
    }
  }

  lemma {:induction false} WithoutOneMore(s: seq<string>, drop: seq<string>, x: string)
    requires NoDup(s) && x !in drop
    ensures Remove(Without(s, drop), x) == Without(s, drop + [x])
  {
    if s != [] {
      var t := s[1..];
      assert NoDup(t);
      WithoutOneMore(t, drop, x);
      if s[0] == x {
        assert x !in t;
        WithoutAbsent(t, drop, x);
      }
    }
  }

  lemma {:induction false} WithoutAbsent(s: seq<string>, drop: seq<string>, x: string)
    requires x !in s
    ensures Without(s, drop + [x]) == Without(s, drop)
  {
    if s != [] {
      WithoutAbsent(s[1..], drop, x);
    }
  }

  lemma {:induction false} UnburyEachExact(s: Broker, ids: seq<string>, n: nat)
    requires n <= |ids| && NoDup(ids) && NoDup(s.dlq)
    requires forall id :: id in ids ==> id in s.msgs.vals
    ensures var s1 := UnburyEach(s, ids, n);
            && s1.cfg == s.cfg && s1.queues == s.queues
            && s1.dlq == Without(s.dlq, ids[..n])
            && (forall id :: id in s.msgs.vals ==>
                  id in s1.msgs.vals &&
                  s1.msgs.vals[id] == if id in ids[..n] then Revived(s.msgs.vals[id]) else s.msgs.vals[id])
  {
    hide Revived, Remove, SameIds;
    if n == 0 {
      WithoutNothing(s.dlq);
    } else {
      UnburyEachExact(s, ids, n - 1);
      var s1 := UnburyEach(s, ids, n - 1);
      var id := ids[n - 1];
      assert ids[..n] == ids[..n - 1] + [id];
      assert id in ids && id !in ids[..n - 1];
      WithoutOneMore(s.dlq, ids[..n - 1], id);
      UnburyShape(s1, id);
    }
  }

  /** The dead letters that came from `target`. */
  ghost function DeadOf(s: Broker, target: string): set<string> {
    set id | id in s.msgs.vals && s.msgs.vals[id].status == Dead && s.msgs.vals[id].originalTarget == target
  }

  lemma {:induction false} DeadFromIsAmong(s: Broker, dlq: seq<string>, target: string)
    requires forall id :: id in dlq ==> id in s.msgs.vals && s.msgs.vals[id].status == Dead
    ensures DeadFrom(s, dlq, target) == Among(dlq, DeadOf(s, target))
  {
    hide Among;
    if dlq == [] {
      AmongLast(dlq, 0, DeadOf(s, target));
      assert dlq[..0] == dlq;
    } else {
      assert dlq == [dlq[0]] + dlq[1..];
      AmongFirst(dlq, DeadOf(s, target));
      DeadFromIsAmong(s, dlq[1..], target);
    }
  }

  /** REPLAY_ALL takes exactly the dead letters from `target` out of the store, brings each home, PENDING and with no
      retries used, and appends them in store order to the queue as far as there is room; it reports success exactly
      when all went in or the queue does not exist. */
  lemma ReplayAllExact(s: Broker, target: string)
    requires Inv(s)
    ensures var ids := Among(s.dlq, DeadOf(s, target));
            var (s', r) := ReplayAll(s, target);
            && s'.dlq == Without(s.dlq, ids)
            && (forall id :: id in s.msgs.vals ==>
                  var m := s.msgs.vals[id];
                  && id in s'.msgs.vals
                  && s'.msgs.vals[id] ==
                     if m.status == Dead && m.originalTarget == target
                     then m.(status := Pending, deliveredTo := "", deliverTime := 0.0, target := m.originalTarget,
                             originalTarget := "", retryCount := 0)
                     else m)
            && if target !in s.queues then s'.queues == s.queues && r == Replays(|ids|)
               else
                 var q := s.queues[target];
                 var n := Min(|ids|, Room(q));
                 && s'.queues == s.queues[target := Queue(q.items + ids[..n], q.maxSize)]
                 && (n == |ids| ==> r == Replays(|ids|))
                 && (n < |ids| ==> r == Error(InternalError))
  {
    hide Inv, CheckBody, DeadFrom, UnburyEach, RequeueEach, Room, Among;
    var ids := DeadFrom(s, s.dlq, target);
    ChosenAreDead(s, target);
    DeadStored(s);
    DeadFromIsAmong(s, s.dlq, target);
    AmongExact(s.dlq, DeadOf(s, target));
    UnburyEachExact(s, ids, |ids|);
    assert ids[..|ids|] == ids;
    var s1 := UnburyEach(s, ids, |ids|);
    forall id | id in ids
      ensures id in s1.msgs.vals && s1.msgs.vals[id].target == target
      ensures CheckBody(s1.cfg, s1.msgs.vals[id].body).Ok?
    {
      DeadNotFrozen(s, id);
      MovedBodyOk(s, id);
    }
    RequeueEachExact(s1, ids, target);
  }

  lemma DeadStored(s: Broker)
    requires Inv(s)
    ensures forall id :: id in s.dlq <==> id in s.msgs.vals && s.msgs.vals[id].status == Dead
  {
    hide Inv;
    forall id
      ensures id in s.dlq <==> id in s.msgs.vals && s.msgs.vals[id].status == Dead
    {
      DeadInDlq(s, id);
    }
  }

  // ---------- The TTL sweep ----------

  function TtlOf(cfg: Config, m: Msg): int {
    if m.ttl > 0 then m.ttl else cfg.defaultTtl
  }

  predicate TtlExpired(cfg: Config, m: Msg, now: real) {
    && (m.status == Pending || m.status == Delivered)
    && TtlOf(cfg, m) >= 0
    && now - m.timestamp as real > TtlOf(cfg, m) as real
  }

  /** What `check_ttl` does to one expired message. */
  function Expire(s: Broker, id: string): (r: Broker)
    requires id in s.msgs.vals
    ensures SameIds(s, r)
  {
    Bury(SetMsg(s, id, s.msgs.vals[id].(status := Expired)), id)
  }

  lemma ExpireShape(s: Broker, id: string)
    requires id in s.msgs.vals
    ensures var s' := Expire(s, id);
            && s'.cfg == s.cfg && s'.queues == s.queues && s'.offsets == s.offsets && s'.counter == s.counter
            && s'.msgs.keys == s.msgs.keys
            && s'.msgs.vals == s.msgs.vals[id := Aged(s.msgs.vals[id])]
            && s'.dlq == (if id in s.dlq then s.dlq else s.dlq + [id])
  {
    var m1 := s.msgs.vals[id].(status := Expired);
    assert s.msgs.vals[id := m1][id := Aged(m1)] == s.msgs.vals[id := Aged(m1)];
  }

  /** `check_ttl` over the first `n` registered messages. */
  function CheckTtl(s: Broker, n: nat, now: real): (r: Broker)
    requires n <= |s.msgs.keys|
    ensures SameIds(s, r)
  {
    if n == 0 then s
    else
      var s1 := CheckTtl(s, n - 1, now);
      var id := s.msgs.keys[n - 1];
      if id in s1.msgs.vals && TtlExpired(s1.cfg, s1.msgs.vals[id], now) then Expire(s1, id) else s1
  }

  function TtlSweep(s: Broker, now: real): (r: Broker)
    ensures SameIds(s, r)
  {
    CheckTtl(s, |s.msgs.keys|, now)
  }

  /** The messages a TTL sweep finds expired. */
  ghost function Lapsed(s: Broker, now: real): set<string> {
    set id | id in s.msgs.vals && TtlExpired(s.cfg, s.msgs.vals[id], now)
  }

  /** The sweep has not touched the records it has not come to. */
  lemma {:induction false} CheckTtlOthers(s: Broker, n: nat, now: real, id: string)
    requires n <= |s.msgs.keys| && id in s.msgs.vals && id !in s.msgs.keys[..n]
    ensures var s1 := CheckTtl(s, n, now); s1.cfg == s.cfg && id in s1.msgs.vals && s1.msgs.vals[id] == s.msgs.vals[id]
  {
    hide TtlExpired, SameIds;
    if n > 0 {
      assert s.msgs.keys[..n] == s.msgs.keys[..n - 1] + [s.msgs.keys[n - 1]];
      CheckTtlOthers(s, n - 1, now, id);
    }
  }

  /** One turn of the sweep: it expires the next record exactly when that had expired at the start. */
  lemma CheckTtlStep(s: Broker, n: nat, now: real)
    requires s.msgs.Valid() && n < |s.msgs.keys|
    ensures var id := s.msgs.keys[n];
            var s1 := CheckTtl(s, n, now);
            && id in s1.msgs.vals && s1.cfg == s.cfg
            && (TtlExpired(s1.cfg, s1.msgs.vals[id], now) <==> id in Lapsed(s, now))
            && CheckTtl(s, n + 1, now) == (if id in Lapsed(s, now) then Expire(s1, id) else s1)
            && Among(s.msgs.keys[..n + 1], Lapsed(s, now)) ==
               Among(s.msgs.keys[..n], Lapsed(s, now)) + if id in Lapsed(s, now) then [id] else []
  {
    hide TtlExpired, SameIds, Among, Expire;
    LatestKey(s.msgs, n + 1);
    CheckTtlOthers(s, n, now, s.msgs.keys[n]);
    AmongLast(s.msgs.keys, n + 1, Lapsed(s, now));
  }

  lemma CheckTtlNone(s: Broker, now: real)
    ensures CheckTtl(s, 0, now) == s
  {
  }

  ghost predicate QueuesAgree(s: Broker) {
    && (forall q :: q in s.queues ==> NoDup(s.queues[q].items))
    && (forall q, id :: q in s.queues && id in s.queues[q].items ==>
          id in s.msgs.vals && s.msgs.vals[id].status == Pending && s.msgs.vals[id].target == q)
  }

  ghost predicate DeadAgree(s: Broker) {
    && NoDup(s.dlq)
    && (forall id :: id in s.dlq <==> id in s.msgs.vals && s.msgs.vals[id].status == Dead)
  }

  /** Queues, dead-letter store and statuses agree on where each message is. */
  ghost predicate OnePlace(s: Broker) {
    QueuesAgree(s) && DeadAgree(s)
  }

  /** What the sweep does: it buries each expired message and touches no queue. */
  lemma {:induction false} CheckTtlExact(s: Broker, n: nat, now: real)
    requires n <= |s.msgs.keys| && s.msgs.Valid() && DeadAgree(s)
    ensures var s1 := CheckTtl(s, n, now);
            && s1.cfg == s.cfg && s1.queues == s.queues
            && DeadAgree(s1)
            && (forall id :: id in s.msgs.vals ==>
                  id in s1.msgs.vals &&
                  s1.msgs.vals[id] ==
                  if id in s.msgs.keys[..n] && TtlExpired(s.cfg, s.msgs.vals[id], now) then Aged(s.msgs.vals[id])
                  else s.msgs.vals[id])
  {
    hide TtlExpired, Aged, DeadAgree, Expire, SameIds;
    if n > 0 {
      CheckTtlExact(s, n - 1, now);
      var s1 := CheckTtl(s, n - 1, now);
      var id := s.msgs.keys[n - 1];
      assert s.msgs.keys[..n] == s.msgs.keys[..n - 1] + [id];
      LatestKey(s.msgs, n);
      if TtlExpired(s.cfg, s.msgs.vals[id], now) {
        ExpiredIsAlive(s.cfg, s.msgs.vals[id], now);
        BuryExpired(s1, id);
      }
    }
  }

  lemma ExpiredIsAlive(cfg: Config, m: Msg, now: real)
    requires TtlExpired(cfg, m, now)
    ensures m.status != Dead
  {
  }

  lemma BuryExpired(s: Broker, id: string)
    requires id in s.msgs.vals && s.msgs.vals[id].status != Dead && DeadAgree(s)
    ensures var s' := Expire(s, id);
            && s'.cfg == s.cfg && s'.queues == s.queues && DeadAgree(s')
            && s'.msgs.vals == s.msgs.vals[id := Aged(s.msgs.vals[id])]
  {
    NoDupSnoc(s.dlq, id);
  }

  lemma InvGivesOnePlace(s: Broker)
    requires Inv(s)
    ensures OnePlace(s) && s.msgs.Valid()
  {
    hide Accounts, Homes, Fifo, CheckBody;
    forall q | q in s.queues
      ensures QueueOk(s.cfg, s.msgs.vals, q, s.queues[q])
    {
    }
  }

  lemma SweepExact(s: Broker, now: real)
    requires s.msgs.Valid() && DeadAgree(s)
    ensures var s' := TtlSweep(s, now);
            && s'.queues == s.queues && DeadAgree(s')
            && (forall id :: id in s.msgs.vals ==>
                  id in s'.msgs.vals &&
                  s'.msgs.vals[id] ==
                  if TtlExpired(s.cfg, s.msgs.vals[id], now) then Aged(s.msgs.vals[id]) else s.msgs.vals[id])
  {
    hide TtlExpired, Aged, DeadAgree;
    CheckTtlExact(s, |s.msgs.keys|, now);
    assert s.msgs.keys[..|s.msgs.keys|] == s.msgs.keys;
  }

  /** Where messages are in one place, the sweep keeps them so if and only if no queued message has outlived its
      TTL: an expired message goes to the dead-letter store but its id stays in the queue. */
  lemma TtlSweepKeepsOnePlace(s: Broker, now: real)
    requires s.msgs.Valid() && OnePlace(s)
    ensures OnePlace(TtlSweep(s, now)) <==>
            forall id :: Queued(s, id) ==> id in s.msgs.vals && !TtlExpired(s.cfg, s.msgs.vals[id], now)
  {
    hide TtlExpired, DeadAgree, TtlSweep;
    SweepExact(s, now);
    var s' := TtlSweep(s, now);
    if forall id :: Queued(s, id) ==> id in s.msgs.vals && !TtlExpired(s.cfg, s.msgs.vals[id], now) {
      forall q, id | q in s'.queues && id in s'.queues[q].items
        ensures id in s'.msgs.vals && s'.msgs.vals[id].status == Pending && s'.msgs.vals[id].target == q
      {
        assert Queued(s, id);
      }
    } else {
      var id :| Queued(s, id) && (id in s.msgs.vals ==> TtlExpired(s.cfg, s.msgs.vals[id], now));
      var q :| q in s.queues && id in s.queues[q].items;
      assert s'.msgs.vals[id] == Aged(s.msgs.vals[id]);
      assert q in s'.queues && id in s'.queues[q].items;
    }
  }

  /** What goes wrong otherwise: when the head of a queue has expired, the next CONSUME hands it out while it stays
      in the dead-letter store. */
  lemma ExpiredHeadIsDeliveredAndDead(s: Broker, queue: string, consumer: string, swept: real, now: real)
    requires s.msgs.Valid() && OnePlace(s) && queue in s.queues && s.queues[queue].items != []
    requires var id := s.queues[queue].items[0];
             id in s.msgs.vals && TtlExpired(s.cfg, s.msgs.vals[id], swept)
    ensures var id := s.queues[queue].items[0];
            var s' := Consume(TtlSweep(s, swept), queue, consumer, now).0;
            id in s'.msgs.vals && s'.msgs.vals[id].status == Delivered && id in s'.dlq
  {
    hide TtlExpired, TtlSweep;
    SweepExact(s, swept);
    var id := s.queues[queue].items[0];
    assert id in TtlSweep(s, swept).dlq;
  }

  /** A TTL of -1 (or 0) means "never" only under a negative default. */
  lemma NeverExpires(cfg: Config, m: Msg)
    requires (m.status == Pending || m.status == Delivered) && m.ttl <= 0
    ensures (forall now :: !TtlExpired(cfg, m, now)) <==> cfg.defaultTtl < 0
  {
    if cfg.defaultTtl >= 0 {
      assert TtlExpired(cfg, m, m.timestamp as real + cfg.defaultTtl as real + 1.0);
    }
  }
}
