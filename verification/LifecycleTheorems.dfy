/** What holds of every message in every state a run of commands and ACK-timeout sweeps can reach. */
module LifecycleTheorems {

  import opened MessageIds
  import opened Lifecycle
  import opened LifecycleInvariant
  import opened LifecycleRuns

  // ---------- Runs ----------

  /** A run from the empty broker in which every new message gets an unused id. */
  ghost predicate LegalRun(cfg: Config, cs: seq<Command>) {
    cfg.maxRetries >= 0 && EnabledRun(Start(cfg), cs)
  }

  lemma ReachableInv(cfg: Config, cs: seq<Command>)
    requires LegalRun(cfg, cs)
    ensures Inv(Run(Start(cfg), cs))
  {
    hide Inv, Run, EnabledRun;
    StartInv(cfg);
    RunGood(Start(cfg), cs);
  }

  lemma {:induction false} RunSplit(s: Broker, a: seq<Command>, b: seq<Command>)
    ensures Run(s, a + b) == Run(Run(s, a), b)
  {
    hide Step;
    if b == [] {
      assert a + b == a;
    } else {
      var n := |b| - 1;
      assert (a + b)[..|a| + n] == a + b[..n];
      RunSplit(s, a, b[..n]);
    }
  }

  lemma EnabledSplit(s: Broker, a: seq<Command>, b: seq<Command>)
    requires EnabledRun(s, a + b)
    ensures EnabledRun(s, a) && EnabledRun(Run(s, a), b)
  {
    hide Run, Enabled;
    forall n | 0 <= n < |a|
      ensures Enabled(Run(s, a[..n]), a[n])
    {
      assert (a + b)[..n] == a[..n];
    }
    forall n | 0 <= n < |b|
      ensures Enabled(Run(Run(s, a), b[..n]), b[n])
    {
      assert (a + b)[..|a| + n] == a + b[..n];
      RunSplit(s, a, b[..n]);
      assert Enabled(Run(s, (a + b)[..|a| + n]), (a + b)[|a| + n]);
    }
  }

  // ---------- Fresh ids ----------

  /** The clock of each new message prints thirteen digits and is past `epoch`; restored ids are older. */
  ghost predicate Clocked(c: Command, epoch: nat) {
    match c
    case SendCmd(_, _, ms, _) => Clock(ms) && ms > epoch
    case PublishCmd(_, _, _, ms, _) => Clock(ms) && ms > epoch
    case RestoreCmd(id, _, _, _, _, _) => OldId(id, epoch)
    case _ => true
  }

  ghost predicate OldId(id: string, epoch: nat) {
    exists ms: nat, k: nat :: Clock(ms) && ms <= epoch && id == MakeId(ms, k)
  }

  ghost predicate Issued(id: string, counter: nat, epoch: nat) {
    exists ms: nat, k: nat :: Clock(ms) && (k <= counter || ms <= epoch) && id == MakeId(ms, k)
  }

  ghost predicate IdsIssued(s: Broker, epoch: nat) {
    forall id :: id in s.msgs.vals ==> Issued(id, s.counter, epoch)
  }

  lemma NextIdUnused(s: Broker, epoch: nat, ms: nat)
    requires IdsIssued(s, epoch) && Clock(ms) && ms > epoch
    ensures NextId(s, ms) !in s.msgs.vals
    ensures Issued(NextId(s, ms), s.counter + 1, epoch)
  {
    hide MakeId;
    assert Issued(MakeId(ms, s.counter + 1), s.counter + 1, epoch);
    if NextId(s, ms) in s.msgs.vals {
      assert Issued(NextId(s, ms), s.counter, epoch);
      var ms': nat, k: nat :| Clock(ms') && (k <= s.counter || ms' <= epoch) && NextId(s, ms) == MakeId(ms', k);
      IdInjective(ms', k, ms, s.counter + 1);
    }
  }

  lemma IssuedLater(id: string, counter: nat, later: nat, epoch: nat)
    requires Issued(id, counter, epoch) && counter <= later
    ensures Issued(id, later, epoch)
  {
    hide MakeId;
    var ms: nat, k: nat :| Clock(ms) && (k <= counter || ms <= epoch) && id == MakeId(ms, k);
  }

  lemma StepIssues(s: Broker, c: Command, epoch: nat)
    requires IdsIssued(s, epoch) && Clocked(c, epoch)
    ensures Enabled(s, c) && IdsIssued(Step(s, c), epoch)
  {
    hide MakeId, NextId, Issued, CheckBody, Consume, Ack, AckBatch, Nack, Sweep, HandBack, Replay, ReplayAll,
      FetchTopic, CreateQueue, DeleteQueue, SetOffset;
    var s' := Step(s, c);
    if c.SendCmd? || c.PublishCmd? {
      NextIdUnused(s, epoch, c.ms);
    }
    if c.RestoreCmd? {
      OldIsIssued(c.id, s.counter, epoch);
    }
    forall id | id in s'.msgs.vals
      ensures Issued(id, s'.counter, epoch)
    {
      if id in s.msgs.vals {
        IssuedLater(id, s.counter, s'.counter, epoch);
      }
    }
  }

  lemma OldIsIssued(id: string, counter: nat, epoch: nat)
    requires OldId(id, epoch)
    ensures Issued(id, counter, epoch)
  {
    hide MakeId;
  }

  /** With sane clocks every run is legal: ids never collide, not even when the clock goes backwards. */
  lemma {:induction false} ClockedRunIsLegal(cfg: Config, cs: seq<Command>, epoch: nat)
    requires cfg.maxRetries >= 0 && forall n :: 0 <= n < |cs| ==> Clocked(cs[n], epoch)
    ensures LegalRun(cfg, cs) && IdsIssued(Run(Start(cfg), cs), epoch)
  {
    hide Step, Enabled, Issued, Clocked;
    if cs != [] {
      var n := |cs| - 1;
      ClockedRunIsLegal(cfg, cs[..n], epoch);
      StepIssues(Run(Start(cfg), cs[..n]), cs[n], epoch);
      forall k | 0 <= k < |cs|
        ensures Enabled(Run(Start(cfg), cs[..k]), cs[k])
      {
        if k < n {
          assert cs[..n][..k] == cs[..k];
          assert Enabled(Run(Start(cfg), cs[..n][..k]), cs[..n][k]);
        }
      }
    }
  }

  /** `c` registers a new message. */
  predicate Issues(c: Command) {
    c.SendCmd? || (c.PublishCmd? && c.topicExists)
  }

  predicate ClockOk(c: Command) {
    (c.SendCmd? || c.PublishCmd?) ==> Clock(c.ms)
  }

  ghost predicate Restored(cs: seq<Command>, id: string) {
    exists j :: 0 <= j < |cs| && cs[j].RestoreCmd? && cs[j].id == id
  }

  /** Registered ids were restored, or issued under a number up to the present one. */
  ghost predicate IdsKnown(s: Broker, cs: seq<Command>) {
    forall id :: id in s.msgs.vals ==>
      Restored(cs, id) || exists ms: nat, k: nat :: Clock(ms) && k <= s.counter && id == MakeId(ms, k)
  }

  lemma RestoredSnoc(cs: seq<Command>, c: Command, id: string)
    ensures Restored(cs + [c], id) <==> Restored(cs, id) || (c.RestoreCmd? && c.id == id)
  {
    if Restored(cs, id) {
      var j :| 0 <= j < |cs| && cs[j].RestoreCmd? && cs[j].id == id;
      assert (cs + [c])[j].RestoreCmd? && (cs + [c])[j].id == id;
    }
    if c.RestoreCmd? && c.id == id {
      assert (cs + [c])[|cs|].RestoreCmd? && (cs + [c])[|cs|].id == id;
    }
  }

  lemma StepKnows(s: Broker, cs: seq<Command>, c: Command)
    requires IdsKnown(s, cs) && ClockOk(c)
    ensures IdsKnown(Step(s, c), cs + [c])
  {
    hide MakeId, CheckBody, Restored, Clock;
    var s' := Step(s, c);
    StepRegisters(s, c);
    forall id | id in s'.msgs.vals
      ensures Restored(cs + [c], id) || exists ms: nat, k: nat :: Clock(ms) && k <= s'.counter && id == MakeId(ms, k)
    {
      RestoredSnoc(cs, c, id);
      if id in s.msgs.vals && !Restored(cs, id) {
        var ms: nat, k: nat :| Clock(ms) && k <= s.counter && id == MakeId(ms, k);
        assert k <= s'.counter;
      }
    }
  }

  /** What a command can add to the registry. */
  lemma StepRegisters(s: Broker, c: Command)
    ensures var s' := Step(s, c);
            && s'.counter == s.counter + (if Issues(c) then 1 else 0)
            && (forall id :: id in s'.msgs.vals ==>
                  || id in s.msgs.vals
                  || (c.RestoreCmd? && id == c.id)
                  || (Issues(c) && id == MakeId(c.ms, s'.counter)))
  {
    hide MakeId, CheckBody, Consume, Ack, AckBatch, Nack, Sweep, HandBack, Replay, ReplayAll, FetchTopic, CreateQueue,
      DeleteQueue, SetOffset;
  }

  lemma {:induction false} RunKnows(cfg: Config, cs: seq<Command>)
    requires forall n :: 0 <= n < |cs| ==> ClockOk(cs[n])
    ensures IdsKnown(Run(Start(cfg), cs), cs)
  {
    hide Step, IdsKnown, ClockOk;
    if cs == [] {
      NothingKnown(cfg);
    } else {
      var n := |cs| - 1;
      RunKnows(cfg, cs[..n]);
      StepKnows(Run(Start(cfg), cs[..n]), cs[..n], cs[n]);
      assert cs[..n] + [cs[n]] == cs;
    }
  }

  lemma NothingKnown(cfg: Config)
    ensures IdsKnown(Start(cfg), [])
  {
  }

  /** The next id is in use exactly when it is the id of a message restored earlier. */
  lemma NextIdInUse(cfg: Config, cs: seq<Command>, ms: nat)
    requires LegalRun(cfg, cs) && Clock(ms) && forall n :: 0 <= n < |cs| ==> ClockOk(cs[n])
    ensures var s := Run(Start(cfg), cs);
            NextId(s, ms) in s.msgs.vals <==> Restored(cs, NextId(s, ms))
  {
    hide Run, EnabledRun, MakeId, ClockOk;
    var s := Run(Start(cfg), cs);
    var id := NextId(s, ms);
    RunKnows(cfg, cs);
    if id in s.msgs.vals && !Restored(cs, id) {
      var ms': nat, k: nat :| Clock(ms') && k <= s.counter && id == MakeId(ms', k);
      IdInjective(ms', k, ms, s.counter + 1);
    }
    if Restored(cs, id) {
      var j :| 0 <= j < |cs| && cs[j].RestoreCmd? && cs[j].id == id;
      RestoredStays(cfg, cs, j);
    }
  }

  lemma RestoredStays(cfg: Config, cs: seq<Command>, j: nat)
    requires LegalRun(cfg, cs) && j < |cs| && cs[j].RestoreCmd?
    ensures cs[j].id in Run(Start(cfg), cs).msgs.vals
  {
    hide Inv, EnabledRun, Step;
    var s := Run(Start(cfg), cs[..j + 1]);
    assert cs == cs[..j + 1] + cs[j + 1..];
    EnabledSplit(Start(cfg), cs[..j + 1], cs[j + 1..]);
    RunSplit(Start(cfg), cs[..j + 1], cs[j + 1..]);
    ReachableInv(cfg, cs[..j + 1]);
    assert cs[..j + 1][..j] == cs[..j];
    RestoreRegisters(Run(Start(cfg), cs[..j]), cs[j]);
    RunGood(s, cs[j + 1..]);
    FollowsKeepsIds(s, Run(s, cs[j + 1..]), cs[j].id);
  }

  lemma RestoreRegisters(s: Broker, c: Command)
    requires c.RestoreCmd?
    ensures c.id in Step(s, c).msgs.vals
  {
  }

  lemma FollowsKeepsIds(s0: Broker, s: Broker, id: string)
    requires Follows(s0, s) && id in s0.msgs.vals
    ensures id in s.msgs.vals
  {
  }

  /** `cs[n]` issues the id of a message restored before it: same clock, same number. */
  ghost predicate Reissues(cfg: Config, cs: seq<Command>, n: nat)
    requires n < |cs|
  {
    Issues(cs[n]) && Restored(cs[..n], MakeId(cs[n].ms, Run(Start(cfg), cs[..n]).counter + 1))
  }

  /** Exactly when ids never collide, for thirteen-digit clocks that may run backwards: no message gets the clock and
      number of one restored before it. */
  lemma {:induction false} LegalIffNoReissue(cfg: Config, cs: seq<Command>)
    requires cfg.maxRetries >= 0 && forall n :: 0 <= n < |cs| ==> ClockOk(cs[n])
    ensures LegalRun(cfg, cs) <==> forall n :: 0 <= n < |cs| ==> !Reissues(cfg, cs, n)
  {
    hide Run, Enabled, MakeId, Restored, Reissues;
    if cs != [] {
      var n := |cs| - 1;
      LegalIffNoReissue(cfg, cs[..n]);
      EnabledLast(Start(cfg), cs);
      forall k | 0 <= k < n
        ensures Reissues(cfg, cs, k) <==> Reissues(cfg, cs[..n], k)
      {
        ReissuesSame(cfg, cs, n, k);
      }
      if LegalRun(cfg, cs[..n]) {
        LastReissues(cfg, cs);
      }
    }
  }

  lemma EnabledLast(s: Broker, cs: seq<Command>)
    requires cs != []
    ensures var n := |cs| - 1;
            EnabledRun(s, cs) <==> EnabledRun(s, cs[..n]) && Enabled(Run(s, cs[..n]), cs[n])
  {
    hide Run, Enabled;
    var n := |cs| - 1;
    assert cs == cs[..n] + [cs[n]];
    if EnabledRun(s, cs) {
      EnabledSplit(s, cs[..n], [cs[n]]);
    }
    if EnabledRun(s, cs[..n]) && Enabled(Run(s, cs[..n]), cs[n]) {
      forall k | 0 <= k < |cs|
        ensures Enabled(Run(s, cs[..k]), cs[k])
      {
        if k < n {
          assert cs[..n][..k] == cs[..k];
          assert Enabled(Run(s, cs[..n][..k]), cs[..n][k]);
        }
      }
    }
  }

  lemma ReissuesSame(cfg: Config, cs: seq<Command>, n: nat, k: nat)
    requires k < n <= |cs|
    ensures Reissues(cfg, cs, k) <==> Reissues(cfg, cs[..n], k)
  {
    hide Run, MakeId, Restored;
    assert cs[..n][..k] == cs[..k];
  }

  lemma LastReissues(cfg: Config, cs: seq<Command>)
    requires cs != [] && LegalRun(cfg, cs[..|cs| - 1]) && forall n :: 0 <= n < |cs| ==> ClockOk(cs[n])
    ensures Enabled(Run(Start(cfg), cs[..|cs| - 1]), cs[|cs| - 1]) <==> !Reissues(cfg, cs, |cs| - 1)
  {
    hide Run, EnabledRun, Restored, MakeId;
    var n := |cs| - 1;
    if Issues(cs[n]) {
      NextIdInUse(cfg, cs[..n], cs[n].ms);
    }
  }

  // ---------- Places ----------

  lemma PlaceOf(s: Broker, id: string)
    requires Inv(s) && id in s.msgs.vals
    ensures Flag(Queued(s, id)) + Flag(s.msgs.vals[id].status == Delivered) + Flag(s.msgs.vals[id].status == Acked) +
            Flag(id in s.dlq) + Flag(Unplaced(s, id)) == 1
    ensures Queued(s, id) ==>
              && s.msgs.vals[id].target in s.queues
              && id in s.queues[s.msgs.vals[id].target].items
              && s.msgs.vals[id].status == Pending
    ensures id in s.dlq <==> s.msgs.vals[id].status == Dead
  {
    hide Accounts, Homes, Fifo;
    assert forall q :: q in s.queues ==> QueueOk(s.cfg, s.msgs.vals, q, s.queues[q]);
  }

  /** Exactly one place: in any reachable state each message is in its own queue, out for delivery, acknowledged,
      dead, or unplaced, and nothing is in two of these. */
  lemma ExactlyOnePlace(cfg: Config, cs: seq<Command>, id: string)
    requires LegalRun(cfg, cs) && id in Run(Start(cfg), cs).msgs.vals
    ensures var s := Run(Start(cfg), cs);
            && Flag(Queued(s, id)) + Flag(s.msgs.vals[id].status == Delivered) +
               Flag(s.msgs.vals[id].status == Acked) + Flag(id in s.dlq) + Flag(Unplaced(s, id)) == 1
            && (Queued(s, id) ==>
                  s.msgs.vals[id].target in s.queues && id in s.queues[s.msgs.vals[id].target].items)
            && (id in s.dlq <==> s.msgs.vals[id].status == Dead)
  {
    hide Inv, Run, LegalRun;
    ReachableInv(cfg, cs);
    PlaceOf(Run(Start(cfg), cs), id);
  }

  /** No id occurs twice in all queues together, and every queued id is registered. */
  lemma NoIdTwice(cfg: Config, cs: seq<Command>, q1: string, i1: nat, q2: string, i2: nat)
    requires LegalRun(cfg, cs)
    requires var s := Run(Start(cfg), cs);
             && q1 in s.queues && i1 < |s.queues[q1].items|
             && q2 in s.queues && i2 < |s.queues[q2].items|
             && s.queues[q1].items[i1] == s.queues[q2].items[i2]
    ensures q1 == q2 && i1 == i2
    ensures var s := Run(Start(cfg), cs); s.queues[q1].items[i1] in s.msgs.vals
  {
    hide Run, LegalRun, Accounts, Homes, Fifo;
    ReachableInv(cfg, cs);
    var s := Run(Start(cfg), cs);
    assert QueueOk(s.cfg, s.msgs.vals, q1, s.queues[q1]) && QueueOk(s.cfg, s.msgs.vals, q2, s.queues[q2]);
    assert s.queues[q1].items[i1] in s.queues[q1].items && s.queues[q2].items[i2] in s.queues[q2].items;
  }

  // ---------- Finality ----------

  /** Acknowledged is final in runs without TTL sweeps: no command or ACK-timeout sweep touches the record, queues it,
      buries it or delivers it. */
  lemma AckedIsFinal(cfg: Config, before: seq<Command>, after: seq<Command>, id: string)
    requires LegalRun(cfg, before + after)
    requires var s := Run(Start(cfg), before); id in s.msgs.vals && s.msgs.vals[id].status == Acked
    ensures SameMessage(Run(Start(cfg), before), Run(Start(cfg), before + after), id)
    ensures id !in Run(Start(cfg), before + after).dlq
  {
    hide Run, EnabledRun, SameMessage;
    FrozenStays(cfg, before, after, id);
  }

  /** In such runs neither does anything touch a message that is PENDING outside every queue. */
  lemma UnplacedStays(cfg: Config, before: seq<Command>, after: seq<Command>, id: string)
    requires LegalRun(cfg, before + after) && Unplaced(Run(Start(cfg), before), id)
    ensures SameMessage(Run(Start(cfg), before), Run(Start(cfg), before + after), id)
    ensures Unplaced(Run(Start(cfg), before + after), id)
  {
    hide Run, EnabledRun, Queued, Count;
    FrozenStays(cfg, before, after, id);
  }

  lemma FrozenStays(cfg: Config, before: seq<Command>, after: seq<Command>, id: string)
    requires LegalRun(cfg, before + after) && Frozen(Run(Start(cfg), before), id)
    ensures SameMessage(Run(Start(cfg), before), Run(Start(cfg), before + after), id)
    ensures id !in Run(Start(cfg), before + after).dlq
  {
    hide Inv, Run, EnabledRun, Queued, Count, Home;
    var s := Run(Start(cfg), before);
    EnabledSplit(Start(cfg), before, after);
    RunSplit(Start(cfg), before, after);
    ReachableInv(cfg, before);
    RunGood(s, after);
    var s' := Run(Start(cfg), before + after);
    assert SameMessage(s, s', id);
    FrozenNotQueued(s', id);
  }

  // ---------- Accounting ----------

  /** Deliveries of a message: one per failed delivery of each completed retry round, one per retry of the current
      round, one per hand-back, and one more while it is out or acknowledged. */
  lemma DeliveryAccounting(cfg: Config, cs: seq<Command>, id: string)
    requires LegalRun(cfg, cs) && id in Run(Start(cfg), cs).msgs.vals
    ensures var s := Run(Start(cfg), cs);
            var m := s.msgs.vals[id];
            && Count(s.trace, Delivery(id)) ==
               (cfg.maxRetries + 1) * Count(s.trace, Replayed(id)) + m.retryCount +
               Count(s.trace, HandedBack(id)) + Flag(m.status == Acked) + Flag(m.status == Delivered)
            && (Count(s.trace, Replayed(id)) == 0 && Count(s.trace, HandedBack(id)) == 0 ==>
                  Count(s.trace, Delivery(id)) <= cfg.maxRetries + 1)
  {
    hide Run, EnabledRun, Homes, Fifo, Count;
    ReachableInv(cfg, cs);
    RunKeepsConfig(cfg, cs);
    var s := Run(Start(cfg), cs);
    assert Balanced(s.cfg, s.trace, id, s.msgs.vals[id]);
    assert MsgOk(s.cfg, s.msgs.vals[id]);
  }

  lemma RunKeepsConfig(cfg: Config, cs: seq<Command>)
    requires LegalRun(cfg, cs)
    ensures Run(Start(cfg), cs).cfg == cfg
  {
    hide Inv, Run, EnabledRun;
    StartInv(cfg);
    RunGood(Start(cfg), cs);
  }

  // ---------- Home and retries ----------

  /** A message registered for `target` belongs to it for good; retries stay within the limit outside the
      dead-letter store and are one past it inside. */
  lemma HomeAndRetries(cfg: Config, cs: seq<Command>, id: string, target: string)
    requires LegalRun(cfg, cs) && Registered(id, target) in Run(Start(cfg), cs).trace
    ensures var s := Run(Start(cfg), cs);
            && id in s.msgs.vals
            && (if s.msgs.vals[id].status == Dead
                then s.msgs.vals[id].originalTarget == target && s.msgs.vals[id].target == DLQ
                else s.msgs.vals[id].target == target)
            && 0 <= s.msgs.vals[id].retryCount
            && (if s.msgs.vals[id].status == Dead then s.msgs.vals[id].retryCount == cfg.maxRetries + 1
                else s.msgs.vals[id].retryCount <= cfg.maxRetries)
  {
    hide Run, EnabledRun, Accounts, Fifo;
    ReachableInv(cfg, cs);
    RunKeepsConfig(cfg, cs);
    var s := Run(Start(cfg), cs);
    assert id in s.msgs.vals && Home(s.msgs.vals[id]) == target;
    assert MsgOk(s.cfg, s.msgs.vals[id]);
  }

  // ---------- Queue order ----------

  /** In every lifetime of a queue, what left from the front followed by what is still there is what joined, in
      order; and the queue never holds more than its capacity. */
  lemma QueueOrderAndCapacity(cfg: Config, cs: seq<Command>, q: string)
    requires LegalRun(cfg, cs) && q in Run(Start(cfg), cs).queues
    ensures var s := Run(Start(cfg), cs);
            && Joined(s.trace, q) == Left(s.trace, q) + s.queues[q].items
            && (s.queues[q].items != [] ==> |s.queues[q].items| <= s.queues[q].maxSize)
  {
    hide Run, EnabledRun, Accounts, Homes, Joined, Left;
    ReachableInv(cfg, cs);
    var s := Run(Start(cfg), cs);
    assert QueueOk(s.cfg, s.msgs.vals, q, s.queues[q]);
  }

  // ---------- Acknowledging ----------

  /** What the answer to ACK means: OK leaves the message acknowledged exactly when it already was, or was out to
      this consumer; for a message that is queued, unplaced or dead the OK is empty. */
  lemma AckOkMeans(s: Broker, id: string, consumer: string)
    requires id in s.msgs.vals
    ensures var (s', r) := Ack(s, id, consumer);
            var m := s.msgs.vals[id];
            && (r == Done <==> m.status != Delivered || m.deliveredTo == consumer)
            && id in s'.msgs.vals
            && (s'.msgs.vals[id].status == Acked <==>
                  m.status == Acked || (m.status == Delivered && m.deliveredTo == consumer))
            && (r == Done && s'.msgs.vals[id].status != Acked ==> s' == s)
  {
  }
}
