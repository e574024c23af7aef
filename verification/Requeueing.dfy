/** What a loop of requeues does when its messages aim at several queues: which of them get in, in which order, and
    which one ends the loop. The ACK-timeout sweep, hand-back and REPLAY_ALL all end in such a loop. */
module Requeueing {

  import opened Common
  import opened Dicts
  import opened Lifecycle
  import opened LifecycleInvariant
  import opened LifecycleRecords

  // ---------- One requeue ----------

  /** How many more ids a queue takes. */
  function Room(q: Queue): nat {
    if |q.items| < q.maxSize then q.maxSize - |q.items| else 0
  }

  /** The queues after `ids` join `target` at the tail. */
  function Joining(queues: map<string, Queue>, target: string, ids: seq<string>): (r: map<string, Queue>)
    requires target in queues
    ensures r.Keys == queues.Keys
  {
    queues[target := queues[target].(items := queues[target].items + ids)]
  }

  lemma RequeueOne(s: Broker, id: string)
    requires id in s.msgs.vals
    ensures var target := s.msgs.vals[id].target;
            var (s', ok) := Requeue(s, id);
            && s'.cfg == s.cfg && s'.msgs == s.msgs && s'.dlq == s.dlq
            && if target !in s.queues then ok && s' == s
               else if CheckBody(s.cfg, s.msgs.vals[id].body).Err? || Room(s.queues[target]) == 0 then !ok && s' == s
               else ok && s'.queues == Joining(s.queues, target, [id])
  {
    hide CheckBody;
  }

  // ---------- A loop into one queue ----------

  lemma JoinOneMore(queues: map<string, Queue>, target: string, ids: seq<string>, n: nat)
    requires target in queues && 0 < n <= |ids|
    ensures Joining(Joining(queues, target, [ids[0]]), target, ids[1..][..n - 1]) == Joining(queues, target, ids[..n])
    ensures Room(Joining(queues, target, [ids[0]])[target]) ==
            if Room(queues[target]) > 0 then Room(queues[target]) - 1 else 0
  {
    assert queues[target].items + [ids[0]] + ids[1..][..n - 1] == queues[target].items + ids[..n];
  }

  lemma JoinNone(queues: map<string, Queue>, target: string, ids: seq<string>)
    requires target in queues
    ensures Joining(queues, target, ids[..0]) == queues
  {
    assert queues[target].items + ids[..0] == queues[target].items;
  }

  /** As many as there is room for join the queue, in order; the rest are dropped when it is full. */
  lemma {:induction false} RequeueEachExact(s: Broker, ids: seq<string>, target: string)
    requires forall id :: id in ids ==> id in s.msgs.vals && s.msgs.vals[id].target == target
    requires forall id :: id in ids ==> CheckBody(s.cfg, s.msgs.vals[id].body).Ok?
    ensures var (s', ok) := RequeueEach(s, ids);
            && s'.cfg == s.cfg && s'.msgs == s.msgs && s'.dlq == s.dlq
            && if target !in s.queues then ok && s'.queues == s.queues
               else
                 var n := Min(|ids|, Room(s.queues[target]));
                 (ok <==> n == |ids|) && s'.queues == Joining(s.queues, target, ids[..n])
    decreases ids
  {
    hide CheckBody, Requeue, Joining, Room, SameIds;
    if target in s.queues {
      JoinNone(s.queues, target, ids);
    }
    if ids != [] {
      var id := ids[0];
      assert ids == [id] + ids[1..];
      assert id in ids;
      RequeueOne(s, id);
      var (s1, ok) := Requeue(s, id);
      if ok {
        RequeueEachExact(s1, ids[1..], target);
        if target in s.queues {
          JoinOneMore(s.queues, target, ids, Min(|ids|, Room(s.queues[target])));
        }
      }
    }
  }

  // ---------- Who gets in ----------

  /** One entry of a loop of requeues: the queue it aims at, and whether its body is acceptable. */
  datatype Entry = Entry(target: string, bodyOk: bool)

  function EntryOf(cfg: Config, m: Msg): Entry {
    Entry(m.target, CheckBody(cfg, m.body).Ok?)
  }

  function Entries(s: Broker, ids: seq<string>): (es: seq<Entry>)
    requires forall id :: id in ids ==> id in s.msgs.vals
    ensures |es| == |ids|
  {
    seq(|ids|, i requires 0 <= i < |ids| => assert ids[i] in ids; EntryOf(s.cfg, s.msgs.vals[ids[i]]))
  }

  /** Entry `i` is not refused: its queue is missing, or its body is acceptable and the queue has room left behind
      the earlier entries that join it too. */
  predicate Passes(queues: map<string, Queue>, es: seq<Entry>, i: nat)
    requires i < |es|
  {
    var e := es[i];
    e.target in queues ==> e.bodyOk && |queues[e.target].items| + multiset(es[..i])[e] < queues[e.target].maxSize
  }

  /** How many entries come before the first, among `n`, that is refused. */
  function PassedOf(queues: map<string, Queue>, es: seq<Entry>, n: nat): (k: nat)
    requires n <= |es|
    ensures k <= n
    ensures forall j :: 0 <= j < k ==> Passes(queues, es, j)
    ensures k < n ==> !Passes(queues, es, k)
  {
    if n == 0 then 0
    else
      var k := PassedOf(queues, es, n - 1);
      if k == n - 1 && Passes(queues, es, n - 1) then n else k
  }

  function Passed(queues: map<string, Queue>, es: seq<Entry>): (k: nat)
    ensures k <= |es|
    ensures forall j :: 0 <= j < k ==> Passes(queues, es, j)
    ensures k < |es| ==> !Passes(queues, es, k)
  {
    PassedOf(queues, es, |es|)
  }

  /** The ids that aim at `q`, in order. */
  function Aimed(ids: seq<string>, es: seq<Entry>, q: string): seq<string>
    requires |ids| == |es|
  {
    if ids == [] then []
    else (if es[0].target == q then [ids[0]] else []) + Aimed(ids[1..], es[1..], q)
  }

  /** The first `k` of `ids` have joined the queues they aim at, each at the tail. */
  ghost predicate JoinedBy(queues: map<string, Queue>, ids: seq<string>, es: seq<Entry>, k: nat,
                           queues': map<string, Queue>)
    requires k <= |ids| == |es|
  {
    && queues'.Keys == queues.Keys
    && forall q :: q in queues ==>
         queues'[q] == Queue(queues[q].items + Aimed(ids[..k], es[..k], q), queues[q].maxSize)
  }

  /** What holds of the entries behind the first also holds once the first has joined. */
  lemma PassesBehind(queues: map<string, Queue>, ids: seq<string>, es: seq<Entry>, i: nat)
    requires |ids| == |es| && 0 < i < |es| && Passes(queues, es, 0)
    ensures var queues1 := if es[0].target in queues then Joining(queues, es[0].target, [ids[0]]) else queues;
            Passes(queues1, es[1..], i - 1) <==> Passes(queues, es, i)
  {
    assert es[..i] == [es[0]] + es[1..][..i - 1];
  }

  lemma PassedBehind(queues: map<string, Queue>, ids: seq<string>, es: seq<Entry>)
    requires |ids| == |es| && es != []
    ensures var queues1 := if es[0].target in queues then Joining(queues, es[0].target, [ids[0]]) else queues;
            Passed(queues, es) == if Passes(queues, es, 0) then 1 + Passed(queues1, es[1..]) else 0
  {
    hide Passes, PassedOf, Joining;
    var queues1 := if es[0].target in queues then Joining(queues, es[0].target, [ids[0]]) else queues;
    if Passes(queues, es, 0) {
      forall i | 0 < i < |es|
        ensures Passes(queues1, es[1..], i - 1) <==> Passes(queues, es, i)
      {
        PassesBehind(queues, ids, es, i);
      }
      var k1 := Passed(queues1, es[1..]);
      forall j | 0 <= j < 1 + k1
        ensures Passes(queues, es, j)
      {
        assert j > 0 ==> Passes(queues1, es[1..], j - 1);
      }
      PassedIs(queues, es, 1 + k1);
    } else {
      PassedIs(queues, es, 0);
    }
  }

  lemma PassedIs(queues: map<string, Queue>, es: seq<Entry>, k: nat)
    requires k <= |es|
    requires forall j :: 0 <= j < k ==> Passes(queues, es, j)
    requires k < |es| ==> !Passes(queues, es, k)
    ensures Passed(queues, es) == k
  {
    hide Passes, PassedOf;
  }

  lemma JoinedFirst(queues: map<string, Queue>, ids: seq<string>, es: seq<Entry>, k: nat,
                    queues': map<string, Queue>)
    requires 0 < k <= |ids| == |es|
    requires var queues1 := if es[0].target in queues then Joining(queues, es[0].target, [ids[0]]) else queues;
             JoinedBy(queues1, ids[1..], es[1..], k - 1, queues')
    ensures JoinedBy(queues, ids, es, k, queues')
  {
    assert ids[..k][1..] == ids[1..][..k - 1] && es[..k][1..] == es[1..][..k - 1];
  }

  lemma JoinedNone(queues: map<string, Queue>, ids: seq<string>, es: seq<Entry>)
    requires |ids| == |es|
    ensures JoinedBy(queues, ids, es, 0, queues)
  {
  }

  /** The loop in full, whatever queues its messages aim at: the messages before the first that is refused
      join theirs, in order; that one and all behind it join none. */
  lemma {:induction false} RequeueEachOutcome(s: Broker, ids: seq<string>)
    requires forall id :: id in ids ==> id in s.msgs.vals
    ensures var (s', ok) := RequeueEach(s, ids);
            var es := Entries(s, ids);
            && s'.cfg == s.cfg && s'.msgs == s.msgs && s'.dlq == s.dlq
            && JoinedBy(s.queues, ids, es, Passed(s.queues, es), s'.queues)
            && (ok <==> Passed(s.queues, es) == |ids|)
    decreases ids
  {
    hide CheckBody, Requeue, Joining, Passed, Passes, JoinedBy, SameIds;
    var es := Entries(s, ids);
    if ids == [] {
      JoinedNone(s.queues, ids, es);
    } else {
      assert ids == [ids[0]] + ids[1..];
      assert ids[0] in ids;
      RequeueOne(s, ids[0]);
      FirstPasses(s.queues, es);
      PassedBehind(s.queues, ids, es);
      var (s1, ok) := Requeue(s, ids[0]);
      if ok {
        RequeueEachOutcome(s1, ids[1..]);
        assert Entries(s1, ids[1..]) == es[1..];
        JoinedFirst(s.queues, ids, es, Passed(s.queues, es), RequeueEach(s, ids).0.queues);
      } else {
        JoinedNone(s.queues, ids, es);
      }
    }
  }

  lemma FirstPasses(queues: map<string, Queue>, es: seq<Entry>)
    requires es != []
    ensures Passes(queues, es, 0) <==> (es[0].target in queues ==> es[0].bodyOk && Room(queues[es[0].target]) > 0)
  {
    assert es[..0] == [];
  }

  /** Requeueing those still PENDING is the same loop when all are. */
  lemma {:induction false} RequeuePendingIsEach(s: Broker, ids: seq<string>)
    requires forall id :: id in ids ==> id in s.msgs.vals && s.msgs.vals[id].status == Pending
    ensures RequeuePending(s, ids) == RequeueEach(s, ids).0
    decreases ids
  {
    hide CheckBody, Requeue, SameIds;
    if ids != [] {
      assert ids == [ids[0]] + ids[1..];
      assert ids[0] in ids;
      RequeueOne(s, ids[0]);
      var (s1, ok) := Requeue(s, ids[0]);
      if ok {
        RequeuePendingIsEach(s1, ids[1..]);
      }
    }
  }

  // ---------- Who is queued then ----------

  lemma {:induction false} AimedElements(ids: seq<string>, es: seq<Entry>, q: string, id: string)
    requires |ids| == |es|
    ensures id in Aimed(ids, es, q) <==> exists j :: 0 <= j < |ids| && ids[j] == id && es[j].target == q
  {
    if ids != [] {
      AimedElements(ids[1..], es[1..], q, id);
      if id in Aimed(ids[1..], es[1..], q) {
        var j :| 0 <= j < |ids[1..]| && ids[1..][j] == id && es[1..][j].target == q;
        assert ids[j + 1] == id && es[j + 1].target == q;
      }
      if j :| 0 <= j < |ids| && ids[j] == id && es[j].target == q {
        if j > 0 {
          assert ids[1..][j - 1] == id && es[1..][j - 1].target == q;
        }
      }
    }
  }

  /** In terms of single messages: queued afterwards is what was queued before, and each message of the loop that
      came through and has a queue. */
  lemma QueuedAfterJoin(s: Broker, ids: seq<string>, es: seq<Entry>, k: nat, s': Broker, id: string)
    requires k <= |ids| == |es| && JoinedBy(s.queues, ids, es, k, s'.queues)
    ensures Queued(s', id) <==>
            Queued(s, id) || exists j :: 0 <= j < k && ids[j] == id && es[j].target in s.queues
  {
    hide Aimed;
    if Queued(s, id) {
      var q :| q in s.queues && id in s.queues[q].items;
      assert q in s'.queues && id in s'.queues[q].items;
    }
    if Queued(s', id) {
      var q :| q in s'.queues && id in s'.queues[q].items;
      AimedElements(ids[..k], es[..k], q, id);
      if id !in s.queues[q].items {
        var j :| 0 <= j < k && ids[..k][j] == id && es[..k][j].target == q;
        assert ids[j] == id && es[j].target in s.queues;
      }
      assert id in s.queues[q].items ==> Queued(s, id);
    }
    if j :| 0 <= j < k && ids[j] == id && es[j].target in s.queues {
      AimedElements(ids[..k], es[..k], es[j].target, id);
      assert ids[..k][j] == id && es[..k][j] == es[j];
      assert es[j].target in s'.queues && id in s'.queues[es[j].target].items;
    }
  }

  // ---------- The ACK-timeout sweep ----------

  /** The elements of `ids` that are in `keep`, in order. */
  function Among(ids: seq<string>, keep: set<string>): seq<string> {
    if ids == [] then []
    else
      var n := |ids| - 1;
      Among(ids[..n], keep) + if ids[n] in keep then [ids[n]] else []
  }

  lemma {:induction false} AmongExact(ids: seq<string>, keep: set<string>)
    ensures forall id :: id in Among(ids, keep) <==> id in ids && id in keep
    ensures NoDup(ids) ==> NoDup(Among(ids, keep))
  {
    if ids != [] {
      var n := |ids| - 1;
      AmongExact(ids[..n], keep);
      assert ids == ids[..n] + [ids[n]];
      NoDupSnoc(ids[..n], ids[n]);
      NoDupSnoc(Among(ids[..n], keep), ids[n]);
    }
  }

  lemma AmongLast(ids: seq<string>, n: nat, keep: set<string>)
    requires n <= |ids|
    ensures n == 0 ==> Among(ids[..n], keep) == []
    ensures n > 0 ==>
              && ids[..n] == ids[..n - 1] + [ids[n - 1]]
              && Among(ids[..n], keep) == Among(ids[..n - 1], keep) + if ids[n - 1] in keep then [ids[n - 1]] else []
  {
    assert n > 0 ==> ids[..n][..n - 1] == ids[..n - 1];
  }

  lemma {:induction false} AmongFirst(ids: seq<string>, keep: set<string>)
    requires ids != []
    ensures Among(ids, keep) == (if ids[0] in keep then [ids[0]] else []) + Among(ids[1..], keep)
  {
    var n := |ids| - 1;
    if n > 0 {
      AmongFirst(ids[..n], keep);
      assert ids[..n][1..] == ids[1..][..n - 1];
    }
  }

  ghost predicate Overdue(s: Broker, id: string, now: real) {
    id in s.msgs.vals && TimedOut(s.cfg, s.msgs.vals[id], now)
  }

  /** The overdue messages that have a retry left. */
  ghost function Retried(s: Broker, now: real): set<string> {
    set id | id in s.msgs.vals && Overdue(s, id, now) && s.msgs.vals[id].retryCount < s.cfg.maxRetries
  }

  /** The first phase of the sweep: each overdue message fails once, and those with a retry left are listed in
      registry order. */
  lemma {:induction false} CheckTimeoutsExact(s: Broker, n: nat, now: real)
    requires s.msgs.Valid() && n <= |s.msgs.keys|
    ensures var (s1, expired) := CheckTimeouts(s, n, now);
            && s1.cfg == s.cfg && s1.queues == s.queues
            && (forall id :: id in s.msgs.vals ==>
                  id in s1.msgs.vals &&
                  s1.msgs.vals[id] ==
                  if id in s.msgs.keys[..n] && Overdue(s, id, now) then FailedMsg(s.cfg, s.msgs.vals[id])
                  else s.msgs.vals[id])
            && expired == Among(s.msgs.keys[..n], Retried(s, now))
  {
    hide TimedOut, FailedMsg, Fail, SameIds, Among;
    if n == 0 {
      AmongLast(s.msgs.keys, 0, Retried(s, now));
    } else {
      CheckTimeoutsExact(s, n - 1, now);
      var (s1, expired) := CheckTimeouts(s, n - 1, now);
      var id := s.msgs.keys[n - 1];
      LatestKey(s.msgs, n);
      AmongLast(s.msgs.keys, n, Retried(s, now));
      if Overdue(s, id, now) {
        FailShape(s1, id);
        FailedStatus(s.cfg, s.msgs.vals[id]);
      }
    }
  }

  lemma FailedStatus(cfg: Config, m: Msg)
    ensures FailedMsg(cfg, m).status == (if m.retryCount < cfg.maxRetries then Pending else Dead)
    ensures FailedMsg(cfg, m).body == m.body
    ensures m.retryCount < cfg.maxRetries ==> FailedMsg(cfg, m).target == m.target
  {
  }

  // ---------- Hand-back ----------

  /** What `consumer` holds. */
  ghost function Held(s: Broker, consumer: string): set<string> {
    set id | id in s.msgs.vals && HeldBy(s, id, consumer)
  }

  /** The first `k` of `held` have been released, and no other record changed. */
  ghost predicate ReleasedBy(vals: map<string, Msg>, held: seq<string>, k: nat, vals': map<string, Msg>)
    requires k <= |held|
  {
    && vals'.Keys == vals.Keys
    && forall id :: id in vals ==> vals'[id] == if id in held[..k] then Release(vals[id]) else vals[id]
  }

  lemma ReleasedFirst(vals: map<string, Msg>, held: seq<string>, k: nat, vals': map<string, Msg>)
    requires 0 < k <= |held| && NoDup(held) && held[0] in vals
    requires ReleasedBy(vals[held[0] := Release(vals[held[0]])], held[1..], k - 1, vals')
    ensures ReleasedBy(vals, held, k, vals')
  {
    assert held[..k] == [held[0]] + held[1..][..k - 1];
    assert held[0] !in held[1..][..k - 1];
  }

  /** The messages of `held` before the first that is refused are released and join their queues in order;
      that one is released and joins none; those behind it stay as they are. */
  ghost predicate HandedBackUpTo(s: Broker, held: seq<string>, s': Broker) {
    && (forall id :: id in held ==> id in s.msgs.vals)
    && var es := Entries(s, held);
       var k := Passed(s.queues, es);
       && s'.cfg == s.cfg && s'.dlq == s.dlq
       && JoinedBy(s.queues, held, es, k, s'.queues)
       && ReleasedBy(s.msgs.vals, held, Min(k + 1, |held|), s'.msgs.vals)
  }

  lemma HandedBackNone(s: Broker)
    ensures HandedBackUpTo(s, [], s)
  {
    assert Entries(s, []) == [];
  }

  lemma HandBackOneShape(s: Broker, id: string)
    requires id in s.msgs.vals
    ensures var e := EntryOf(s.cfg, s.msgs.vals[id]);
            var (s', ok) := Requeue(HandBackOne(s, id), id);
            && s'.cfg == s.cfg && s'.dlq == s.dlq
            && s'.msgs.vals == s.msgs.vals[id := Release(s.msgs.vals[id])]
            && (ok <==> (e.target in s.queues ==> e.bodyOk && Room(s.queues[e.target]) > 0))
            && s'.queues == if e.target in s.queues && ok then Joining(s.queues, e.target, [id]) else s.queues
  {
    hide CheckBody, Requeue, Joining, Room;
    RequeueOne(HandBackOne(s, id), id);
  }

  lemma HandedBackStops(s: Broker, held: seq<string>, s': Broker)
    requires held != [] && forall id :: id in held ==> id in s.msgs.vals
    requires held[0] in held
    requires var e := EntryOf(s.cfg, s.msgs.vals[held[0]]);
             e.target in s.queues && (!e.bodyOk || Room(s.queues[e.target]) == 0)
    requires s'.cfg == s.cfg && s'.dlq == s.dlq && s'.queues == s.queues
    requires s'.msgs.vals == s.msgs.vals[held[0] := Release(s.msgs.vals[held[0]])]
    ensures HandedBackUpTo(s, held, s')
  {
    hide Passed, Passes, JoinedBy, Room;
    var es := Entries(s, held);
    FirstPasses(s.queues, es);
    JoinedNone(s.queues, held, es);
    PassedIs(s.queues, es, 0);
  }

  lemma HandedBackGoesOn(s: Broker, held: seq<string>, s2: Broker, s': Broker)
    requires held != [] && NoDup(held) && forall id :: id in held ==> id in s.msgs.vals
    requires held[0] in held
    requires var e := EntryOf(s.cfg, s.msgs.vals[held[0]]);
             && (e.target in s.queues ==> e.bodyOk && Room(s.queues[e.target]) > 0)
             && s2.queues == if e.target in s.queues then Joining(s.queues, e.target, [held[0]]) else s.queues
    requires s2.cfg == s.cfg && s2.dlq == s.dlq
    requires s2.msgs.vals == s.msgs.vals[held[0] := Release(s.msgs.vals[held[0]])]
    requires HandedBackUpTo(s2, held[1..], s')
    ensures HandedBackUpTo(s, held, s')
  {
    hide Passed, Passes, JoinedBy, ReleasedBy, Room, Joining;
    var es := Entries(s, held);
    FirstPasses(s.queues, es);
    PassedBehind(s.queues, held, es);
    assert Entries(s2, held[1..]) == es[1..];
    var k := Passed(s.queues, es);
    JoinedFirst(s.queues, held, es, k, s'.queues);
    ReleasedFirst(s.msgs.vals, held, Min(k + 1, |held|), s'.msgs.vals);
  }

  /** Hand-back in full, over the registered `ids`. */
  lemma {:induction false} HandBackEachOutcome(s: Broker, ids: seq<string>, consumer: string, keep: set<string>)
    requires NoDup(ids) && forall id :: id in ids ==> id in s.msgs.vals && (HeldBy(s, id, consumer) <==> id in keep)
    ensures HandedBackUpTo(s, Among(ids, keep), HandBackEach(s, ids, consumer))
    decreases ids
  {
    hide CheckBody, Requeue, Joining, Room, HandedBackUpTo, SameIds, Among;
    if ids == [] {
      AmongLast(ids, 0, keep);
      assert ids[..0] == ids;
      HandedBackNone(s);
    } else {
      assert ids == [ids[0]] + ids[1..];
      AmongFirst(ids, keep);
      AmongExact(ids, keep);
      var held := Among(ids, keep);
      if ids[0] in keep {
        HandBackOneShape(s, ids[0]);
        var (s2, ok) := Requeue(HandBackOne(s, ids[0]), ids[0]);
        assert held[1..] == Among(ids[1..], keep);
        if ok {
          HandBackEachOutcome(s2, ids[1..], consumer, keep);
          HandedBackGoesOn(s, held, s2, HandBackEach(s, ids, consumer));
        } else {
          HandedBackStops(s, held, HandBackEach(s, ids, consumer));
        }
      } else {
        HandBackEachOutcome(s, ids[1..], consumer, keep);
        assert held == Among(ids[1..], keep);
      }
    }
  }
}
