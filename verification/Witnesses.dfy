/** Short runs that reach the states in which messages are lost or expire in a queue. */
module Witnesses {

  import opened Common
  import opened Dicts
  import opened MessageIds
  import opened Lifecycle
  import opened LifecycleInvariant
  import opened LifecycleRecords
  import opened LifecycleRuns
  import opened LifecycleTheorems
  import opened Requeueing
  import opened DeadLetters
  import opened TtlRuns
  import opened Finality
  import opened LifecycleStranding

  /** A configuration that takes a one-byte message. */
  predicate TakesOneByte(cfg: Config) {
    cfg.maxRetries >= 0 && cfg.maxMessageBytes >= 1
  }

  lemma RunSnoc(s: Broker, cs: seq<Command>, c: Command)
    ensures Run(s, cs + [c]) == Step(Run(s, cs), c)
  {
    assert (cs + [c])[..|cs|] == cs;
  }

  lemma OneByteOk(cfg: Config)
    requires TakesOneByte(cfg)
    ensures CheckBody(cfg, "x").Ok?
  {
    assert Utf8Length("x") == 1 + Utf8Length("");
  }

  lemma IdsDiffer(ms: nat)
    requires Clock(ms)
    ensures MakeId(ms, 1) != MakeId(ms, 2) && MakeId(ms, 1) != MakeId(ms, 3) && MakeId(ms, 2) != MakeId(ms, 3)
  {
    IdInjective(ms, 1, ms, 2);
    IdInjective(ms, 1, ms, 3);
    IdInjective(ms, 2, ms, 3);
  }

  // ---------- Two queues, one of them full again ----------

  function TwoQueues(): seq<Command> {
    [CreateQueueCmd("a", Some(1)), CreateQueueCmd("b", Some(1))]
  }

  function TwoSends(ms: nat, seconds: int): seq<Command> {
    TwoQueues() + [SendCmd("a", "x", ms, seconds)] + [SendCmd("b", "x", ms, seconds)]
  }

  /** Queues `a` and `b` take one message each. Consumer `c` holds one message of each, and `a` is full again. */
  function FullAgain(ms: nat, seconds: int): seq<Command> {
    TwoSends(ms, seconds) + [ConsumeCmd("a", "c", 1.0)] + [ConsumeCmd("b", "c", 1.0)] + [SendCmd("a", "x", ms, seconds)]
  }

  lemma NewQueue(s: Broker, name: string)
    requires |name| == 1 && NameChar(name[0]) && name !in s.queues
    ensures var s' := Step(s, CreateQueueCmd(name, Some(1)));
            && s'.cfg == s.cfg && s'.msgs == s.msgs && s'.counter == s.counter && s'.dlq == s.dlq
            && s'.queues == s.queues[name := Queue([], 1)]
  {
    assert name[0] != '\n';
    assert ValidName(name);
  }

  lemma NewSend(s: Broker, queue: string, ms: nat, seconds: int)
    requires TakesOneByte(s.cfg) && s.msgs.Valid() && NextId(s, ms) !in s.msgs.vals
    requires queue in s.queues && s.queues[queue] == Queue([], 1)
    ensures var s' := Step(s, SendCmd(queue, "x", ms, seconds));
            var id := NextId(s, ms);
            && s'.cfg == s.cfg && s'.counter == s.counter + 1 && s'.dlq == s.dlq
            && s'.msgs.keys == s.msgs.keys + [id]
            && s'.msgs.vals == s.msgs.vals[id := Sent(id, queue, seconds)]
            && s'.queues == s.queues[queue := Queue([id], 1)]
  {
    hide NextId, CheckBody, Send;
    OneByteOk(s.cfg);
    SendOutcome(s, queue, "x", ms, seconds);
    assert s.queues[queue].items + [NextId(s, ms)] == [NextId(s, ms)];
  }

  lemma NewConsume(s: Broker, queue: string, id: string)
    requires queue in s.queues && s.queues[queue] == Queue([id], 1) && id in s.msgs.vals
    ensures var s' := Step(s, ConsumeCmd(queue, "c", 1.0));
            && s'.cfg == s.cfg && s'.counter == s.counter && s'.dlq == s.dlq
            && s'.msgs.keys == s.msgs.keys
            && s'.msgs.vals == s.msgs.vals[id := Taken(s.msgs.vals[id])]
            && s'.queues == s.queues[queue := Queue([], 1)]
  {
    assert s.queues[queue].items[1..] == [];
  }

  lemma AfterQueues(cfg: Config)
    ensures var s := Run(Start(cfg), TwoQueues());
            && s.cfg == cfg && s.msgs == Empty() && s.counter == 0 && s.dlq == []
            && s.queues == map["a" := Queue([], 1), "b" := Queue([], 1)]
  {
    hide Run, Step;
    var cs: seq<Command> := [];
    var c1, c2 := CreateQueueCmd("a", Some(1)), CreateQueueCmd("b", Some(1));
    assert TwoQueues() == cs + [c1] + [c2];
    RunSnoc(Start(cfg), cs, c1);
    RunSnoc(Start(cfg), cs + [c1], c2);
    RunNothing(Start(cfg));
    NewQueue(Start(cfg), "a");
    NewQueue(Step(Start(cfg), c1), "b");
  }

  lemma RunNothing(s: Broker)
    ensures Run(s, []) == s
  {
  }

  function Sent(id: string, queue: string, seconds: int): Msg {
    NewMsg(id, queue, "x", seconds, 0, 0)
  }

  function Taken(m: Msg): Msg {
    m.(status := Delivered, deliveredTo := "c", deliverTime := 1.0)
  }

  lemma AfterSends(cfg: Config, ms: nat, seconds: int)
    requires TakesOneByte(cfg) && Clock(ms)
    ensures var s := Run(Start(cfg), TwoSends(ms, seconds));
            var id1, id2 := MakeId(ms, 1), MakeId(ms, 2);
            && s.cfg == cfg && s.counter == 2 && s.dlq == []
            && s.msgs.keys == [id1, id2]
            && s.msgs.vals == map[id1 := Sent(id1, "a", seconds), id2 := Sent(id2, "b", seconds)]
            && s.queues == map["a" := Queue([id1], 1), "b" := Queue([id2], 1)]
  {
    hide MakeId, Clock, Run, Step;
    AfterQueues(cfg);
    IdsDiffer(ms);
    var s0 := Run(Start(cfg), TwoQueues());
    var c1, c2 := SendCmd("a", "x", ms, seconds), SendCmd("b", "x", ms, seconds);
    RunSnoc(Start(cfg), TwoQueues(), c1);
    RunSnoc(Start(cfg), TwoQueues() + [c1], c2);
    NewSend(s0, "a", ms, seconds);
    NewSend(Step(s0, c1), "b", ms, seconds);
  }

  lemma AfterConsumes(cfg: Config, ms: nat, seconds: int)
    requires TakesOneByte(cfg) && Clock(ms)
    ensures var s := Run(Start(cfg), FullAgain(ms, seconds));
            var id1, id2, id3 := MakeId(ms, 1), MakeId(ms, 2), MakeId(ms, 3);
            && s.cfg == cfg && s.counter == 3 && s.dlq == []
            && s.msgs.keys == [id1, id2, id3]
            && s.msgs.vals == map[id1 := Taken(Sent(id1, "a", seconds)), id2 := Taken(Sent(id2, "b", seconds)),
                                  id3 := Sent(id3, "a", seconds)]
            && s.queues == map["a" := Queue([id3], 1), "b" := Queue([], 1)]
  {
    hide MakeId, Clock, Run, Step;
    AfterSends(cfg, ms, seconds);
    IdsDiffer(ms);
    var cs := TwoSends(ms, seconds);
    var s0 := Run(Start(cfg), cs);
    var c1, c2, c3 := ConsumeCmd("a", "c", 1.0), ConsumeCmd("b", "c", 1.0), SendCmd("a", "x", ms, seconds);
    RunSnoc(Start(cfg), cs, c1);
    RunSnoc(Start(cfg), cs + [c1], c2);
    RunSnoc(Start(cfg), cs + [c1] + [c2], c3);
    BothTaken(s0, MakeId(ms, 1), MakeId(ms, 2), seconds);
    NewSend(Step(Step(s0, c1), c2), "a", ms, seconds);
  }

  lemma BothTaken(s: Broker, id1: string, id2: string, seconds: int)
    requires id1 != id2 && s.msgs.keys == [id1, id2]
    requires s.msgs.vals == map[id1 := Sent(id1, "a", seconds), id2 := Sent(id2, "b", seconds)]
    requires s.queues == map["a" := Queue([id1], 1), "b" := Queue([id2], 1)]
    ensures var s' := Step(Step(s, ConsumeCmd("a", "c", 1.0)), ConsumeCmd("b", "c", 1.0));
            && s'.cfg == s.cfg && s'.counter == s.counter && s'.dlq == s.dlq && s'.msgs.Valid()
            && s'.msgs.keys == [id1, id2]
            && s'.msgs.vals == map[id1 := Taken(Sent(id1, "a", seconds)), id2 := Taken(Sent(id2, "b", seconds))]
            && s'.queues == map["a" := Queue([], 1), "b" := Queue([], 1)]
  {
    hide Step;
    NewConsume(s, "a", id1);
    NewConsume(Step(s, ConsumeCmd("a", "c", 1.0)), "b", id2);
  }

  lemma FullAgainIsLegal(cfg: Config, ms: nat, seconds: int)
    requires TakesOneByte(cfg) && Clock(ms)
    ensures LegalRun(cfg, FullAgain(ms, seconds)) && Inv(Run(Start(cfg), FullAgain(ms, seconds)))
  {
    hide Run, EnabledRun, Inv, IdsIssued;
    forall n | 0 <= n < |FullAgain(ms, seconds)|
      ensures Clocked(FullAgain(ms, seconds)[n], 0)
    {
    }
    ClockedRunIsLegal(cfg, FullAgain(ms, seconds), 0);
    ReachableInv(cfg, FullAgain(ms, seconds));
  }

  // ---------- Losses ----------

  /** The state after `FullAgain`: `c` holds `id1` of queue `a` and `id2` of queue `b`; `id3` fills `a`, `b` is
      empty. */
  ghost predicate AtFull(s: Broker, id1: string, id2: string, id3: string, seconds: int) {
    && TakesOneByte(s.cfg) && InPlace(s)
    && id1 != id2 && id1 != id3 && id2 != id3
    && s.dlq == [] && s.msgs.keys == [id1, id2, id3]
    && s.msgs.vals == map[id1 := Taken(Sent(id1, "a", seconds)), id2 := Taken(Sent(id2, "b", seconds)),
                          id3 := Sent(id3, "a", seconds)]
    && s.queues == map["a" := Queue([id3], 1), "b" := Queue([], 1)]
  }

  lemma FullAgainReaches(cfg: Config, ms: nat, seconds: int)
    requires TakesOneByte(cfg) && Clock(ms)
    ensures var s := Run(Start(cfg), FullAgain(ms, seconds));
            s.cfg == cfg && AtFull(s, MakeId(ms, 1), MakeId(ms, 2), MakeId(ms, 3), seconds)
  {
    hide Run, MakeId, FullAgain, Inv, InPlace;
    AfterConsumes(cfg, ms, seconds);
    IdsDiffer(ms);
    FullAgainIsLegal(cfg, ms, seconds);
    InvInPlace(Run(Start(cfg), FullAgain(ms, seconds)));
  }

  /** The holder of a message, with a retry left, sends NACK while its queue is full: the message is lost. */
  lemma NackLoses(s: Broker, id1: string, id2: string, id3: string, seconds: int)
    requires AtFull(s, id1, id2, id3, seconds) && s.cfg.maxRetries >= 1
    ensures Unplaced(Nack(s, id1, "c").0, id1)
  {
    hide InPlace, Nack, Unplaced;
    NackStrands(s, id1, "c", id1);
    assert Loses(s, NackCmd(id1, "c"), id1);
  }

  /** The sweep meets the full queue `a` first: the message of `b` is lost too, though `b` is empty. */
  lemma SweepLosesBehindFullQueue(s: Broker, id1: string, id2: string, id3: string, seconds: int)
    requires AtFull(s, id1, id2, id3, seconds) && s.cfg.maxRetries >= 1
    ensures var s' := Sweep(s, s.cfg.defaultAckTimeout + 2.0);
            && Unplaced(s', id1) && Unplaced(s', id2)
            && "b" in s'.queues && s'.queues["b"] == Queue([], 1)
  {
    hide InPlace, Sweep, Unplaced, Passed, JoinedBy, Among, Retried, Entries;
    var now := s.cfg.defaultAckTimeout + 2.0;
    RetriedAtFull(s, id1, id2, id3, seconds);
    HeldAtFull(s, id1, id2, id3, seconds);
    assert IsAt([id1, id2], 0, id1) && IsAt([id1, id2], 1, id2);
    SweepDrops(s, now, [id1, id2], 0);
    SweepDrops(s, now, [id1, id2], 1);
    SweepFillsNone(s, now, [id1, id2], "b");
  }

  /** A sweep whose first message is refused drops all of them and fills no queue. */
  lemma SweepDrops(s: Broker, now: real, ids: seq<string>, i: nat)
    requires InPlace(s) && ids == Among(s.msgs.keys, Retried(s, now)) && i < |ids|
    requires (forall j :: j in ids ==> j in s.msgs.vals) && Passed(s.queues, Entries(s, ids)) == 0
    ensures Unplaced(Sweep(s, now), ids[i])
  {
    hide InPlace, Sweep, Unplaced, Passed, Among, Retried, Entries;
    assert IsAt(ids, i, ids[i]) && LeftOut(s.queues, Entries(s, ids), i);
    SweepStrands(s, now, ids[i]);
  }

  lemma SweepFillsNone(s: Broker, now: real, ids: seq<string>, q: string)
    requires InPlace(s) && ids == Among(s.msgs.keys, Retried(s, now)) && q in s.queues
    requires (forall j :: j in ids ==> j in s.msgs.vals) && Passed(s.queues, Entries(s, ids)) == 0
    ensures q in Sweep(s, now).queues && Sweep(s, now).queues[q] == s.queues[q]
  {
    hide InPlace, Sweep, Passed, Among, Retried, Entries, JoinedBy;
    SweepOutcome(s, now);
    NoneJoined(s.queues, ids, Entries(s, ids), Sweep(s, now).queues, q);
  }

  lemma RetriedAtFull(s: Broker, id1: string, id2: string, id3: string, seconds: int)
    requires AtFull(s, id1, id2, id3, seconds) && s.cfg.maxRetries >= 1
    ensures var now := s.cfg.defaultAckTimeout + 2.0;
            Among(s.msgs.keys, Retried(s, now)) == [id1, id2]
  {
    hide InPlace, Among;
    assert Retried(s, s.cfg.defaultAckTimeout + 2.0) == {id1, id2};
    FirstTwo(id1, id2, id3);
  }

  lemma FirstTwo(a: string, b: string, c: string)
    requires a != c && b != c
    ensures Among([a, b, c], {a, b}) == [a, b]
  {
    assert [a, b, c][..2] == [a, b] && [a, b][..1] == [a] && [a][..0] == [];
    assert Among([a], {a, b}) == [a];
    assert Among([a, b], {a, b}) == [a, b];
  }

  lemma FirstIsStuck(queues: map<string, Queue>, es: seq<Entry>)
    requires es != [] && es[0].target in queues && Room(queues[es[0].target]) == 0
    ensures Passed(queues, es) == 0
  {
    FirstPasses(queues, es);
    PassedIs(queues, es, 0);
  }

  lemma NoneJoined(queues: map<string, Queue>, ids: seq<string>, es: seq<Entry>, queues': map<string, Queue>,
                   q: string)
    requires |ids| == |es| && JoinedBy(queues, ids, es, 0, queues') && q in queues
    ensures q in queues' && queues'[q] == queues[q]
  {
    assert ids[..0] == [] && es[..0] == [];
  }

  /** The consumer is gone: the message of the full queue is released into no queue, and the hand-back ends there,
      so the other stays out to it. */
  lemma HandBackLoses(s: Broker, id1: string, id2: string, id3: string, seconds: int)
    requires AtFull(s, id1, id2, id3, seconds)
    ensures Unplaced(HandBack(s, "c"), id1) && HeldBy(HandBack(s, "c"), id2, "c")
  {
    hide InPlace, HandBackEach, Unplaced, Passed, JoinedBy, Among, CheckBody;
    HeldAtFull(s, id1, id2, id3, seconds);
    var ids := [id1, id2];
    assert IsAt(ids, 0, id1);
    assert ReleasedIntoNone(s.queues, Entries(s, ids), 0);
    HandBackStrands(s, "c", id1);
    HandBackReachesNoMore(s, id1, id2, id3, seconds);
  }

  lemma HeldAtFull(s: Broker, id1: string, id2: string, id3: string, seconds: int)
    requires AtFull(s, id1, id2, id3, seconds)
    ensures Held(s, "c") == {id1, id2} && Among(s.msgs.keys, Held(s, "c")) == [id1, id2]
    ensures Passed(s.queues, Entries(s, [id1, id2])) == 0
  {
    hide InPlace, Passed, Among;
    assert Held(s, "c") == {id1, id2};
    FirstTwo(id1, id2, id3);
    FirstIsStuck(s.queues, Entries(s, [id1, id2]));
  }

  lemma HandBackReachesNoMore(s: Broker, id1: string, id2: string, id3: string, seconds: int)
    requires AtFull(s, id1, id2, id3, seconds)
    ensures HeldBy(HandBack(s, "c"), id2, "c")
  {
    hide InPlace, HandBackEach, Unplaced, Passed, JoinedBy, Among, CheckBody;
    HeldAtFull(s, id1, id2, id3, seconds);
    OneByteOk(s.cfg);
    KeptValid(s);
    HandBackEachOutcome(s, s.msgs.keys, "c", Held(s, "c"));
    assert [id1, id2][..1] == [id1];
  }

  /** With no retries allowed, NACK buries the message; REPLAY then takes it out of the dead-letter store and loses
      it to the full queue. */
  lemma ReplayLoses(s: Broker, id1: string, id2: string, id3: string, seconds: int)
    requires AtFull(s, id1, id2, id3, seconds) && s.cfg.maxRetries == 0
    ensures var dead := Nack(s, id1, "c").0;
            && id1 in dead.dlq
            && Unplaced(Replay(dead, id1).0, id1) && id1 !in Replay(dead, id1).0.dlq
  {
    hide InPlace, Replay, Unplaced;
    var dead := Nack(s, id1, "c").0;
    NackKept(s, id1, "c");
    BuriedAtOnce(s, id1, "c");
    assert Loses(dead, ReplayCmd(id1), id1);
    ReplayStrands(dead, id1, id1);
    ReplayKept(dead, id1);
    UnplacedIsNotDead(Replay(dead, id1).0, id1);
  }

  lemma BuriedAtOnce(s: Broker, id: string, consumer: string)
    requires HeldBy(s, id, consumer) && s.msgs.vals[id].retryCount == s.cfg.maxRetries
    ensures var s' := Nack(s, id, consumer).0;
            && s'.queues == s.queues && id in s'.dlq
            && id in s'.msgs.vals && s'.msgs.vals[id].originalTarget == s.msgs.vals[id].target
  {
  }

  lemma UnplacedIsNotDead(s: Broker, id: string)
    requires InPlace(s) && Unplaced(s, id)
    ensures id !in s.dlq
  {
    DeadKeys(s);
  }

  /** All of these happen in runs: the state they start from is reached. */
  lemma LossesAreReachable(cfg: Config, ms: nat, seconds: int)
    requires TakesOneByte(cfg) && Clock(ms) && cfg.maxRetries >= 1
    ensures var id1, id2 := MakeId(ms, 1), MakeId(ms, 2);
            var cs := FullAgain(ms, seconds);
            && LegalRun(cfg, cs)
            && Unplaced(Run(Start(cfg), cs + [NackCmd(id1, "c")]), id1)
            && Unplaced(Run(Start(cfg), cs + [HandBackCmd("c")]), id1)
            && Unplaced(Run(Start(cfg), cs + [SweepCmd(cfg.defaultAckTimeout + 2.0)]), id2)
  {
    hide Run, Inv, MakeId, FullAgain, EnabledRun, AtFull, Unplaced, Step;
    var id1, id2, id3 := MakeId(ms, 1), MakeId(ms, 2), MakeId(ms, 3);
    var cs := FullAgain(ms, seconds);
    FullAgainIsLegal(cfg, ms, seconds);
    FullAgainReaches(cfg, ms, seconds);
    RunSnoc(Start(cfg), cs, NackCmd(id1, "c"));
    RunSnoc(Start(cfg), cs, HandBackCmd("c"));
    RunSnoc(Start(cfg), cs, SweepCmd(cfg.defaultAckTimeout + 2.0));
    OneStepLoses(Run(Start(cfg), cs), id1, id2, id3, seconds);
  }

  lemma OneStepLoses(s: Broker, id1: string, id2: string, id3: string, seconds: int)
    requires AtFull(s, id1, id2, id3, seconds) && s.cfg.maxRetries >= 1
    ensures Unplaced(Step(s, NackCmd(id1, "c")), id1)
    ensures Unplaced(Step(s, HandBackCmd("c")), id1)
    ensures Unplaced(Step(s, SweepCmd(s.cfg.defaultAckTimeout + 2.0)), id2)
  {
    hide AtFull, Unplaced, Nack, Sweep, HandBack;
    NackLoses(s, id1, id2, id3, seconds);
    HandBackLoses(s, id1, id2, id3, seconds);
    SweepLosesBehindFullQueue(s, id1, id2, id3, seconds);
  }

  // ---------- Coming back ----------

  /** After the loss by NACK the consumer takes the other message of queue `a`. */
  function ThenRoom(id: string): seq<Command> {
    [NackCmd(id, "c")] + [ConsumeCmd("a", "c", 1.0)]
  }

  /** A lost message is not gone for good: once it has expired a TTL sweep buries it, and with room in its queue REPLAY
      brings it back. */
  lemma LostComesBack(cfg: Config, ms: nat, seconds: int)
    requires TakesOneByte(cfg) && Clock(ms) && cfg.maxRetries >= 1 && cfg.defaultTtl >= 0
    ensures var id := MakeId(ms, 1);
            var lost := Run(Start(cfg), FullAgain(ms, seconds) + ThenRoom(id));
            var swept := TtlSweep(lost, seconds as real + cfg.defaultTtl as real + 1.0);
            && Unplaced(lost, id)
            && id in swept.dlq
            && Queued(Replay(swept, id).0, id)
  {
    hide Run, Inv, InPlace, MakeId, FullAgain, Unplaced, Step, AtFull, TtlSweep;
    var id1, id2, id3 := MakeId(ms, 1), MakeId(ms, 2), MakeId(ms, 3);
    var cs := FullAgain(ms, seconds);
    FullAgainReaches(cfg, ms, seconds);
    assert cs + ThenRoom(id1) == cs + [NackCmd(id1, "c")] + [ConsumeCmd("a", "c", 1.0)];
    RunSnoc(Start(cfg), cs, NackCmd(id1, "c"));
    RunSnoc(Start(cfg), cs + [NackCmd(id1, "c")], ConsumeCmd("a", "c", 1.0));
    LostWithRoom(Run(Start(cfg), cs), id1, id2, id3, seconds);
    var lost := Run(Start(cfg), cs + ThenRoom(id1));
    OneByteOk(cfg);
    LapsedComesBack(lost, seconds as real + cfg.defaultTtl as real + 1.0, id1);
  }

  lemma LostWithRoom(s: Broker, id1: string, id2: string, id3: string, seconds: int)
    requires AtFull(s, id1, id2, id3, seconds) && s.cfg.maxRetries >= 1
    ensures var s' := Step(Step(s, NackCmd(id1, "c")), ConsumeCmd("a", "c", 1.0));
            && s'.cfg == s.cfg && InPlace(s') && Unplaced(s', id1) && HasStatus(s', id1, Pending)
            && s'.msgs.vals[id1].body == "x" && s'.msgs.vals[id1].target == "a" && s'.msgs.vals[id1].ttl == 0
            && s'.msgs.vals[id1].timestamp == seconds
            && "a" in s'.queues && s'.queues["a"] == Queue([], 1)
  {
    hide InPlace, Nack, Unplaced, CheckBody;
    NackLoses(s, id1, id2, id3, seconds);
    NackKept(s, id1, "c");
    NackAtFull(s, id1, id2, id3, seconds);
    var s1 := Nack(s, id1, "c").0;
    NewConsume(s1, "a", id3);
    ConsumeKept(s1, "a", "c", 1.0);
    ConsumeStrandsNone(s1, "a", "c", 1.0, id1);
  }

  lemma NackAtFull(s: Broker, id1: string, id2: string, id3: string, seconds: int)
    requires AtFull(s, id1, id2, id3, seconds) && s.cfg.maxRetries >= 1
    ensures var s' := Nack(s, id1, "c").0;
            && s'.cfg == s.cfg && s'.queues == s.queues && id3 in s'.msgs.vals && id1 in s'.msgs.vals
            && s'.msgs.vals[id1] == FailedMsg(s.cfg, s.msgs.vals[id1])
  {
    hide InPlace, Requeue, Fail, CheckBody;
    FailShape(s, id1);
    RequeueOne(Fail(s, id1), id1);
  }

  // ---------- Expiry in a queue ----------

  lemma TwoSendsIsLegal(cfg: Config, ms: nat, seconds: int)
    requires TakesOneByte(cfg) && Clock(ms)
    ensures LegalRun(cfg, TwoSends(ms, seconds)) && Inv(Run(Start(cfg), TwoSends(ms, seconds)))
  {
    hide Run, EnabledRun, Inv, IdsIssued;
    forall n | 0 <= n < |TwoSends(ms, seconds)|
      ensures Clocked(TwoSends(ms, seconds)[n], 0)
    {
    }
    ClockedRunIsLegal(cfg, TwoSends(ms, seconds), 0);
    ReachableInv(cfg, TwoSends(ms, seconds));
  }

  /** A message sent to a queue and left there past the default TTL is the expired head of it, in a reachable state:
      the next sweep breaks the agreement, and CONSUME then hands out a dead letter. */
  lemma ExpiredHeadIsReachable(cfg: Config, ms: nat, seconds: int)
    requires TakesOneByte(cfg) && Clock(ms) && cfg.defaultTtl >= 0
    ensures var s := Run(Start(cfg), TwoSends(ms, seconds));
            var now := seconds as real + cfg.defaultTtl as real + 1.0;
            var id := MakeId(ms, 1);
            && LegalRun(cfg, TwoSends(ms, seconds))
            && s.msgs.Valid() && OnePlace(s)
            && "a" in s.queues && s.queues["a"].items == [id]
            && id in s.msgs.vals && TtlExpired(cfg, s.msgs.vals[id], now)
            && !OnePlace(TtlSweep(s, now))
            && var s' := Consume(TtlSweep(s, now), "a", "c", now).0;
               id in s'.msgs.vals && s'.msgs.vals[id].status == Delivered && id in s'.dlq
  {
    hide Run, Inv, MakeId, EnabledRun, TwoSends, OnePlace, TtlSweep, Consume;
    var s, id := Run(Start(cfg), TwoSends(ms, seconds)), MakeId(ms, 1);
    var now := seconds as real + cfg.defaultTtl as real + 1.0;
    TwoSendsIsLegal(cfg, ms, seconds);
    AfterSends(cfg, ms, seconds);
    IdsDiffer(ms);
    InvGivesOnePlace(s);
    assert s.queues["a"].items[0] == id;
    assert TtlExpired(s.cfg, s.msgs.vals[id], now);
    ExpiredHeadBreaks(s, "a", now);
    ExpiredHeadIsDeliveredAndDead(s, "a", "c", now, now);
  }

  /** And so an acknowledged message can be PENDING again: CONSUME and ACK of that head, then REPLAY. */
  lemma AckCanBeUndone(cfg: Config, ms: nat, seconds: int)
    requires TakesOneByte(cfg) && Clock(ms) && cfg.defaultTtl >= 0
    ensures var s := Run(Start(cfg), TwoSends(ms, seconds));
            var now := seconds as real + cfg.defaultTtl as real + 1.0;
            var id := MakeId(ms, 1);
            var acked := Ack(Consume(TtlSweep(s, now), "a", "c", now).0, id, "c").0;
            && LegalRun(cfg, TwoSends(ms, seconds))
            && HasStatus(acked, id, Acked)
            && HasStatus(Step(acked, ReplayCmd(id)), id, Pending)
  {
    hide Run, Inv, MakeId, EnabledRun, TwoSends, OnePlace, TtlSweep, Consume, Ack, Step, Final, TtlExpired;
    ExpiredHeadIsReachable(cfg, ms, seconds);
    var now := seconds as real + cfg.defaultTtl as real + 1.0;
    RunKeepsConfig(cfg, TwoSends(ms, seconds));
    ExpiredHeadAckIsNotFinal(Run(Start(cfg), TwoSends(ms, seconds)), "a", "c", now, now);
  }

  lemma ExpiredHeadBreaks(s: Broker, queue: string, now: real)
    requires s.msgs.Valid() && OnePlace(s) && queue in s.queues && s.queues[queue].items != []
    requires var id := s.queues[queue].items[0];
             id in s.msgs.vals && TtlExpired(s.cfg, s.msgs.vals[id], now)
    ensures !OnePlace(TtlSweep(s, now))
  {
    hide OnePlace, TtlSweep, TtlExpired;
    assert s.queues[queue].items[0] in s.queues[queue].items;
    assert Queued(s, s.queues[queue].items[0]);
    TtlSweepKeepsOnePlace(s, now);
  }
}
