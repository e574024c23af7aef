/** Topic consumption by offset, under any interleaving with everything else the broker does. */
module Topics {

  import opened Common
  import opened Order
  import opened MessageIds
  import opened Lifecycle
  import opened LifecycleInvariant
  import opened LifecycleRuns
  import opened LifecycleRecords
  import opened LifecycleTheorems

  // ---------- Offset keys ----------

  predicate NoColon(s: string) {
    ':' !in s
  }

  /** Consumer ids have no colon, so a key splits at its last one: no two (topic, consumer) pairs share a key. */
  lemma OffsetKeyInjective(t1: string, c1: string, t2: string, c2: string)
    requires NoColon(c1) && NoColon(c2) && OffsetKey(t1, c1) == OffsetKey(t2, c2)
    ensures t1 == t2 && c1 == c2
  {
    hide NoColon;
    var k := OffsetKey(t1, c1);
    assert k[|t1|] == ':' && k[|t2|] == ':';
    assert c1 == k[|t1| + 1..] && c2 == k[|t2| + 1..];
    if |t1| < |t2| {
      ColonInTail(k, |t1|, |t2|);
    } else if |t2| < |t1| {
      ColonInTail(k, |t2|, |t1|);
    }
    assert t1 == k[..|t1|] && t2 == k[..|t2|];
  }

  lemma ColonInTail(k: string, i: nat, j: nat)
    requires i < j < |k| && k[j] == ':'
    ensures !NoColon(k[i + 1..])
  {
    assert k[j] == k[i + 1..][j - i - 1];
  }

  // ---------- The publish sequence ----------

  /** The registered ids that belong to `topic`, in registration order. */
  function PostsOf(keys: seq<string>, vals: map<string, Msg>, topic: string): seq<string> {
    if keys == [] then []
    else
      var n := |keys| - 1;
      var id := keys[n];
      if id in vals && Home(vals[id]) == topic then PostsOf(keys[..n], vals, topic) + [id]
      else PostsOf(keys[..n], vals, topic)
  }

  function Posts(s: Broker, topic: string): seq<string> {
    PostsOf(s.msgs.keys, s.msgs.vals, topic)
  }

  lemma {:induction false} PostsElements(keys: seq<string>, vals: map<string, Msg>, topic: string)
    ensures forall id :: id in PostsOf(keys, vals, topic) <==> id in keys && id in vals && Home(vals[id]) == topic
  {
    if keys != [] {
      var n := |keys| - 1;
      PostsElements(keys[..n], vals, topic);
      assert keys == keys[..n] + [keys[n]];
    }
  }

  lemma {:induction false} PostsDependOnHomes(keys: seq<string>, vals: map<string, Msg>, vals': map<string, Msg>,
                                              topic: string)
    requires forall id :: id in keys ==> id in vals && id in vals' && Home(vals'[id]) == Home(vals[id])
    ensures PostsOf(keys, vals', topic) == PostsOf(keys, vals, topic)
  {
    if keys != [] {
      var n := |keys| - 1;
      assert forall id :: id in keys[..n] ==> id in keys;
      PostsDependOnHomes(keys[..n], vals, vals', topic);
    }
  }

  /** No queue has the topic's name, and none of its messages has ever moved. */
  ghost predicate TopicOwn(s: Broker, topic: string) {
    && Inv(s)
    && topic != DLQ && topic !in s.queues
    && (forall id :: id in s.msgs.vals && Home(s.msgs.vals[id]) == topic ==> s.msgs.vals[id].status == Pending)
  }

  /** Their ids ascend as well. */
  ghost predicate TopicReady(s: Broker, topic: string) {
    TopicOwn(s, topic) && Sorted(Posts(s, topic))
  }

  /** The sorted listing that consumption works on is the publish sequence exactly when the ids ascend. */
  lemma TopicIdsArePosts(s: Broker, topic: string)
    requires TopicOwn(s, topic)
    ensures TopicIds(s, topic) == Posts(s, topic) <==> Sorted(Posts(s, topic))
  {
    hide Accounts, Homes, Fifo;
    PostsElements(s.msgs.keys, s.msgs.vals, topic);
    forall id
      ensures id in TopicIds(s, topic) <==> id in Posts(s, topic)
    {
      if id in s.msgs.vals {
        assert MsgOk(s.cfg, s.msgs.vals[id]);
      }
    }
    if Sorted(Posts(s, topic)) {
      SortedUnique(TopicIds(s, topic), Posts(s, topic));
    }
  }

  // ---------- One step ----------

  /** The id a command registers under `topic`, if it does. */
  function NewPost(s: Broker, c: Command, topic: string): Option<string> {
    match c
    case SendCmd(queue, body, ms, _) => if queue == topic then Some(NextId(s, ms)) else None
    case PublishCmd(t, topicExists, _, ms, _) => if t == topic && topicExists then Some(NextId(s, ms)) else None
    case RestoreCmd(id, target, _, _, _, _) => if target == topic && id !in s.msgs.vals then Some(id) else None
    case _ => None
  }

  /** What a command on the run may not do: reuse an id, go below the topic's ids, or name a queue like the topic. */
  ghost predicate Respects(s: Broker, c: Command, topic: string) {
    && Enabled(s, c)
    && (NewPost(s, c, topic).Some? ==> forall id :: id in Posts(s, topic) ==> Less(id, NewPost(s, c, topic).value))
    && !(c.CreateQueueCmd? && c.name == topic)
  }

  /** The message a command leaves registered that was not there before. */
  function NewMessage(s: Broker, c: Command): Option<Msg> {
    match c
    case SendCmd(queue, body, ms, seconds) =>
      if CheckBody(s.cfg, body).Ok? && queue in s.queues && |s.queues[queue].items| >= s.queues[queue].maxSize then None
      else Some(NewMsg(NextId(s, ms), queue, body, seconds, 0, 0))
    case PublishCmd(topic, topicExists, body, ms, seconds) =>
      if topicExists then Some(NewMsg(NextId(s, ms), topic, body, seconds, 0, 0)) else None
    case RestoreCmd(id, target, body, timestamp, ttl, ackTimeout) =>
      if id in s.msgs.vals then None else Some(NewMsg(id, target, body, timestamp, ttl, ackTimeout))
    case _ => None
  }

  ghost predicate RegistryAfter(s: Broker, s': Broker, m: Option<Msg>) {
    match m
    case None => s'.msgs.keys == s.msgs.keys && s'.msgs.vals.Keys == s.msgs.vals.Keys
    case Some(m) =>
      && m.id !in s.msgs.vals
      && s'.msgs.keys == s.msgs.keys + [m.id]
      && s'.msgs.vals == s.msgs.vals[m.id := m]
  }

  lemma StepRegistry(s: Broker, c: Command)
    requires Inv(s) && Enabled(s, c)
    ensures RegistryAfter(s, Step(s, c), NewMessage(s, c))
    ensures forall q :: q in Step(s, c).queues ==> q in s.queues || (c.CreateQueueCmd? && c.name == q)
    ensures !c.FetchCmd? && !c.SetOffsetCmd? ==> Step(s, c).offsets == s.offsets
  {
    hide Inv, Consume, Ack, AckBatch, Nack, Sweep, HandBack, Replay, ReplayAll, FetchTopic, NextId, CheckBody,
      ValidName, Send;
    if c.SendCmd? {
      SendRegistry(s, c);
    }
    if c.FetchCmd? {
      FetchOnlyMovesOffset(s, c.topic, c.consumer);
    }
  }

  lemma SendRegistry(s: Broker, c: Command)
    requires c.SendCmd? && Inv(s) && Enabled(s, c)
    ensures RegistryAfter(s, Step(s, c), NewMessage(s, c))
    ensures Step(s, c).queues.Keys == s.queues.Keys && Step(s, c).offsets == s.offsets
  {
    hide Inv, NextId, CheckBody, Lifecycle.Send;
    RegistryValid(s);
    SendOutcome(s, c.queue, c.body, c.ms, c.seconds);
  }

  lemma FetchOnlyMovesOffset(s: Broker, topic: string, consumer: string)
    ensures var s' := FetchTopic(s, topic, consumer).0;
            s'.queues == s.queues && s'.msgs == s.msgs && s'.counter == s.counter
  {
  }

  /** Every step keeps the topic ready and adds to its publish sequence just the new post, if any. */
  lemma StepTopic(s: Broker, c: Command, topic: string)
    requires TopicReady(s, topic) && Respects(s, c, topic)
    ensures TopicReady(Step(s, c), topic)
    ensures Posts(Step(s, c), topic) ==
            Posts(s, topic) + (match NewPost(s, c, topic) case Some(id) => [id] case None => [])
  {
    hide Inv, Step, PostsOf, Follows, Enabled, Frozen, NextId, CheckBody, Less, Sorted;
    var s' := Step(s, c);
    StepRegistry(s, c);
    StepGood(s, c);
    OldPostsSame(s, s', topic);
    var m := NewMessage(s, c);
    if m.Some? {
      OnePost(s, s', m.value, topic);
    }
    if NewPost(s, c, topic).Some? {
      SortedSnoc(Posts(s, topic), NewPost(s, c, topic).value);
    }
    assert Posts(s, topic) + [] == Posts(s, topic);
  }

  lemma SortedSnoc(a: seq<string>, x: string)
    requires Sorted(a) && forall y :: y in a ==> Less(y, x)
    ensures Sorted(a + [x])
  {
    assert forall i :: 0 <= i < |a| ==> a[i] in a;
  }

  /** What was registered before belongs where it belonged, and the topic's messages have not moved. */
  lemma OldPostsSame(s: Broker, s': Broker, topic: string)
    requires TopicReady(s, topic) && Good(s, s')
    ensures PostsOf(s.msgs.keys, s'.msgs.vals, topic) == Posts(s, topic)
    ensures forall id :: id in s.msgs.vals && Home(s'.msgs.vals[id]) == topic ==>
              id in s'.msgs.vals && s'.msgs.vals[id].status == Pending
  {
    hide Accounts, Homes, Fifo, Count, PostsOf, Sorted;
    PostsDependOnHomes(s.msgs.keys, s.msgs.vals, s'.msgs.vals, topic);
    forall id | id in s.msgs.vals && Home(s'.msgs.vals[id]) == topic
      ensures s'.msgs.vals[id].status == Pending
    {
      assert s.msgs.vals[id].status == Pending && s.msgs.vals[id].target == topic;
      assert !Queued(s, id) by {
        assert forall q :: q in s.queues ==> QueueOk(s.cfg, s.msgs.vals, q, s.queues[q]);
      }
      assert Frozen(s, id);
      assert SameMessage(s, s', id);
    }
  }

  lemma OnePost(s: Broker, s': Broker, m: Msg, topic: string)
    requires s'.msgs.keys == s.msgs.keys + [m.id] && m.id in s'.msgs.vals && s'.msgs.vals[m.id] == m
    requires m.status == Pending
    ensures Posts(s', topic) ==
            PostsOf(s.msgs.keys, s'.msgs.vals, topic) + (if m.target == topic then [m.id] else [])
  {
    assert s'.msgs.keys[..|s'.msgs.keys| - 1] == s.msgs.keys;
  }

  // ---------- Runs ----------

  ghost predicate RespectfulRun(s: Broker, cs: seq<Command>, topic: string) {
    forall n :: 0 <= n < |cs| ==> Respects(Run(s, cs[..n]), cs[n], topic)
  }

  /** The ids `consumer` got from `topic` along a run. */
  ghost function Fetches(s: Broker, cs: seq<Command>, topic: string, consumer: string): seq<string> {
    if cs == [] then []
    else
      var n := |cs| - 1;
      Fetches(s, cs[..n], topic, consumer) +
      if cs[n] != FetchCmd(topic, consumer) then []
      else
        match FetchTopic(Run(s, cs[..n]), topic, consumer).1
        case Got(id, _) => [id]
        case _ => []
  }

  /** Commands that move offsets come from consumers without a colon in their id, and none resets this offset. */
  ghost predicate LeavesOffset(c: Command, topic: string, consumer: string) {
    && (c.FetchCmd? ==> NoColon(c.consumer))
    && (c.SetOffsetCmd? ==> NoColon(c.consumer) && !(c.topic == topic && c.consumer == consumer))
  }

  lemma OffsetAfter(s: Broker, c: Command, topic: string, consumer: string)
    requires Inv(s) && Enabled(s, c) && NoColon(consumer) && LeavesOffset(c, topic, consumer)
    requires c != FetchCmd(topic, consumer)
    ensures OffsetOf(Step(s, c), topic, consumer) == OffsetOf(s, topic, consumer)
  {
    hide Inv, OffsetKey, TopicIds;
    if c.FetchCmd? || c.SetOffsetCmd? {
      hide Enabled;
      if OffsetKey(c.topic, c.consumer) == OffsetKey(topic, consumer) {
        OffsetKeyInjective(c.topic, c.consumer, topic, consumer);
      }
    } else {
      hide Step;
      StepRegistry(s, c);
    }
  }

  /** In `s` the consumer has read `got`, the posts from `offset` on, and stands right behind them. */
  ghost predicate HasRead(s: Broker, topic: string, consumer: string, offset: nat, got: seq<string>) {
    && OffsetOf(s, topic, consumer) == offset + |got|
    && (got != [] ==> offset + |got| <= |Posts(s, topic)|)
    && (forall i :: 0 <= i < |got| ==> offset + i < |Posts(s, topic)| && got[i] == Posts(s, topic)[offset + i])
  }

  lemma PostsGrow(s: Broker, s': Broker, topic: string, consumer: string, offset: nat, got: seq<string>)
    requires HasRead(s, topic, consumer, offset, got) && Posts(s, topic) <= Posts(s', topic)
    requires OffsetOf(s', topic, consumer) == OffsetOf(s, topic, consumer)
    ensures HasRead(s', topic, consumer, offset, got)
  {
    hide Posts, OffsetOf;
  }

  /** What one more fetch adds. */
  lemma ReadOneMore(s: Broker, topic: string, consumer: string, offset: nat, got: seq<string>)
    requires TopicReady(s, topic) && HasRead(s, topic, consumer, offset, got)
    ensures var (s', r) := FetchTopic(s, topic, consumer);
            HasRead(s', topic, consumer, offset, got + (match r case Got(id, _) => [id] case _ => []))
  {
    hide TopicReady, Posts, OffsetOf, FetchTopic;
    FetchGives(s, topic, consumer);
    FetchKeepsPosts(s, topic, consumer);
  }

  lemma FetchKeepsPosts(s: Broker, topic: string, consumer: string)
    ensures Posts(FetchTopic(s, topic, consumer).0, topic) == Posts(s, topic)
  {
    FetchOnlyMovesOffset(s, topic, consumer);
  }

  /** Exact prefix: whatever the other consumers, publishers, queues and sweeps do in between, the ids a consumer
      gets are the publish sequence from its offset on, without gap or repeat. */
  lemma {:induction false} FetchesFollowPosts(s: Broker, cs: seq<Command>, topic: string, consumer: string)
    requires TopicReady(s, topic) && RespectfulRun(s, cs, topic) && NoColon(consumer)
    requires forall n :: 0 <= n < |cs| ==> LeavesOffset(cs[n], topic, consumer)
    ensures TopicReady(Run(s, cs), topic)
    ensures Posts(s, topic) <= Posts(Run(s, cs), topic)
    ensures HasRead(Run(s, cs), topic, consumer, OffsetOf(s, topic, consumer), Fetches(s, cs, topic, consumer))
  {
    hide TopicReady, Posts, Respects, Step, OffsetOf, LeavesOffset, FetchTopic, HasRead;
    var offset := OffsetOf(s, topic, consumer);
    if cs == [] {
      NothingRead(s, topic, consumer);
    } else {
      var n := |cs| - 1;
      forall k | 0 <= k < n
        ensures Respects(Run(s, cs[..n][..k]), cs[..n][k], topic)
      {
        assert cs[..n][..k] == cs[..k];
      }
      FetchesFollowPosts(s, cs[..n], topic, consumer);
      var mid := Run(s, cs[..n]);
      var got := Fetches(s, cs[..n], topic, consumer);
      StepTopic(mid, cs[n], topic);
      if cs[n] == FetchCmd(topic, consumer) {
        ReadOneMore(mid, topic, consumer, offset, got);
        FetchGives(mid, topic, consumer);
      } else {
        RespectsEnabled(mid, cs[n], topic);
        OffsetAfter(mid, cs[n], topic, consumer);
        PostsGrow(mid, Step(mid, cs[n]), topic, consumer, offset, got);
        assert got + [] == got;
      }
    }
  }

  lemma NothingRead(s: Broker, topic: string, consumer: string)
    ensures HasRead(s, topic, consumer, OffsetOf(s, topic, consumer), [])
  {
  }

  lemma RespectsEnabled(s: Broker, c: Command, topic: string)
    requires TopicReady(s, topic) && Respects(s, c, topic)
    ensures Inv(s) && Enabled(s, c)
  {
  }

  /** One fetch: the post at the offset and one step on, or nothing at the end. */
  lemma FetchGives(s: Broker, topic: string, consumer: string)
    requires TopicReady(s, topic)
    ensures var (s', r) := FetchTopic(s, topic, consumer);
            var offset := OffsetOf(s, topic, consumer);
            && s' == Step(s, FetchCmd(topic, consumer))
            && if offset < |Posts(s, topic)|
               then r.Got? && r.id == Posts(s, topic)[offset] && OffsetOf(s', topic, consumer) == offset + 1
               else r == Nothing && s' == s
  {
    hide TopicOwn, Sorted, TopicIds, Posts, OffsetKey;
    TopicIdsArePosts(s, topic);
  }

  lemma StartReady(cfg: Config, topic: string)
    requires cfg.maxRetries >= 0 && topic != DLQ
    ensures TopicReady(Start(cfg), topic)
  {
    StartInv(cfg);
  }

  // ---------- Ids ascend by the clock ----------

  /** The clock reading a command stamps a new message with. */
  function Stamp(c: Command): Option<nat> {
    match c
    case SendCmd(_, _, ms, _) => Some(ms)
    case PublishCmd(_, _, _, ms, _) => Some(ms)
    case _ => None
  }

  /** Nothing is restored, and the clock of new messages prints thirteen digits and never goes back. */
  ghost predicate OrderedClocks(cs: seq<Command>) {
    && (forall n :: 0 <= n < |cs| ==> !cs[n].RestoreCmd? && (Stamp(cs[n]).Some? ==> Clock(Stamp(cs[n]).value)))
    && (forall i, j :: 0 <= i < j < |cs| && Stamp(cs[i]).Some? && Stamp(cs[j]).Some? ==>
          Stamp(cs[i]).value <= Stamp(cs[j]).value)
  }

  /** Where the counter gains a digit beyond the sixth, the clock has moved since every earlier reading. */
  ghost predicate ClockMovesOnDigits(cfg: Config, cs: seq<Command>) {
    forall j, n :: 0 <= j < n < |cs| && Stamp(cs[j]).Some? && Issues(cs[n]) &&
                   GainsDigit(Run(Start(cfg), cs[..n]).counter + 1) ==>
      Stamp(cs[j]).value < cs[n].ms
  }

  /** Issued under a clock up to `bound`; if it was `bound` itself, no digit was gained since. */
  ghost predicate Bounded(id: string, counter: nat, bound: nat) {
    exists ms: nat, k: nat ::
      Clock(ms) && ms <= bound && k <= counter && id == MakeId(ms, k) && (ms < bound || SameWidth(k, counter))
  }

  ghost predicate AllBounded(s: Broker, bound: nat) {
    forall id :: id in s.msgs.vals ==> Bounded(id, s.counter, bound)
  }

  /** All ids so far are older than `ms`, or as old and of one width with the next. */
  ghost predicate Below(s: Broker, ms: nat) {
    && Clock(ms)
    && AllBounded(s, if GainsDigit(s.counter + 1) then ms - 1 else ms)
  }

  lemma NextIdGreatest(s: Broker, ms: nat)
    requires Below(s, ms)
    ensures forall id :: id in s.msgs.vals ==> Less(id, NextId(s, ms))
    ensures NextId(s, ms) !in s.msgs.vals
  {
    hide MakeId, Less, GainsDigit;
    forall id | id in s.msgs.vals
      ensures Less(id, NextId(s, ms))
    {
      var bound := if GainsDigit(s.counter + 1) then ms - 1 else ms;
      assert Bounded(id, s.counter, bound);
      var ms': nat, k: nat :| Clock(ms') && ms' <= bound && k <= s.counter && id == MakeId(ms', k) &&
                              (ms' < bound || SameWidth(k, s.counter));
      if ms' < ms {
        LaterClockLess(ms', k, ms, s.counter + 1);
      } else {
        SameWidthOrder(ms, k, s.counter + 1);
      }
    }
    LessIrreflexive(NextId(s, ms));
  }

  lemma BoundedLater(id: string, counter: nat, later: nat, bound: nat)
    requires Bounded(id, counter, bound) && (later == counter || later == counter + 1)
    requires later > counter && GainsDigit(later) ==> exists low: nat :: low < bound && Bounded(id, counter, low)
    ensures Bounded(id, later, bound)
  {
    hide MakeId, GainsDigit;
    if later > counter && GainsDigit(later) {
      var low: nat :| low < bound && Bounded(id, counter, low);
      var ms: nat, k: nat :| Clock(ms) && ms <= low && k <= counter && id == MakeId(ms, k) &&
                             (ms < low || SameWidth(k, counter));
      assert ms < bound;
    } else {
      var ms: nat, k: nat :| Clock(ms) && ms <= bound && k <= counter && id == MakeId(ms, k) &&
                             (ms < bound || SameWidth(k, counter));
      assert ms < bound || SameWidth(k, later);
    }
  }

  lemma StepBounded(s: Broker, c: Command, bound: nat)
    requires AllBounded(s, bound) && !c.RestoreCmd?
    requires Issues(c) ==> c.ms <= bound && Below(s, c.ms)
    ensures AllBounded(Step(s, c), bound)
  {
    hide Step, MakeId, Bounded, GainsDigit, Clock;
    var s' := Step(s, c);
    StepRegisters(s, c);
    if Issues(c) {
      NextIdBounded(s, c.ms, bound);
    }
    forall id | id in s'.msgs.vals
      ensures Bounded(id, s'.counter, bound)
    {
      if id in s.msgs.vals {
        if Issues(c) && GainsDigit(s.counter + 1) {
          assert Clock(c.ms);
          ClockPositive(c.ms);
          assert c.ms - 1 < bound && Bounded(id, s.counter, c.ms - 1);
        }
        BoundedLater(id, s.counter, s'.counter, bound);
      }
    }
  }

  lemma ClockPositive(ms: nat)
    requires Clock(ms)
    ensures ms > 0
  {
  }

  lemma NextIdBounded(s: Broker, ms: nat, bound: nat)
    requires Clock(ms) && ms <= bound
    ensures Bounded(MakeId(ms, s.counter + 1), s.counter + 1, bound)
  {
    hide MakeId, GainsDigit;
    assert SameWidth(s.counter + 1, s.counter + 1);
  }

  /** With a clock that does not go back and moves whenever the counter gains a digit, every new id is greater than
      all before it, so any topic name no queue takes is consumed in publish order. */
  lemma {:induction false} OrderedClocksRespect(cfg: Config, cs: seq<Command>, topic: string, bound: nat)
    requires cfg.maxRetries >= 0 && OrderedClocks(cs) && ClockMovesOnDigits(cfg, cs)
    requires forall n :: 0 <= n < |cs| && Stamp(cs[n]).Some? ==> Stamp(cs[n]).value <= bound
    requires forall n :: 0 <= n < |cs| ==> !(cs[n].CreateQueueCmd? && cs[n].name == topic)
    ensures RespectfulRun(Start(cfg), cs, topic)
    ensures LegalRun(cfg, cs) && AllBounded(Run(Start(cfg), cs), bound)
    decreases |cs|
  {
    hide Step, Enabled, Posts, MakeId, Inv, NextId, Respects, Bounded, GainsDigit, Run, EnabledRun;
    if cs == [] {
      NothingBounded(cfg, bound);
    } else {
      var n := |cs| - 1;
      var mid := Run(Start(cfg), cs[..n]);
      MovesBefore(cfg, cs, n);
      OrderedClocksRespect(cfg, cs[..n], topic, bound);
      if Issues(cs[n]) {
        var ms := cs[n].ms;
        ClockPositive(ms);
        OrderedClocksRespect(cfg, cs[..n], topic, if GainsDigit(mid.counter + 1) then ms - 1 else ms);
      }
      StepRespects(mid, cs[n], topic);
      EnabledLast(Start(cfg), cs);
      RespectsLast(Start(cfg), cs, topic);
      StepBounded(mid, cs[n], bound);
      RunLast(Start(cfg), cs);
    }
  }

  lemma NothingBounded(cfg: Config, bound: nat)
    ensures Run(Start(cfg), []) == Start(cfg) && EnabledRun(Start(cfg), []) && AllBounded(Start(cfg), bound)
  {
  }

  lemma MovesBefore(cfg: Config, cs: seq<Command>, n: nat)
    requires ClockMovesOnDigits(cfg, cs) && n <= |cs|
    ensures ClockMovesOnDigits(cfg, cs[..n])
  {
    hide Run, GainsDigit;
    forall i | 0 <= i < n
      ensures cs[..n][..i] == cs[..i]
    {
    }
  }

  lemma RunLast(s: Broker, cs: seq<Command>)
    requires cs != []
    ensures Run(s, cs) == Step(Run(s, cs[..|cs| - 1]), cs[|cs| - 1])
  {
  }

  lemma RespectsLast(s: Broker, cs: seq<Command>, topic: string)
    requires cs != [] && RespectfulRun(s, cs[..|cs| - 1], topic)
    requires Respects(Run(s, cs[..|cs| - 1]), cs[|cs| - 1], topic)
    ensures RespectfulRun(s, cs, topic)
  {
    hide Run, Respects;
    var n := |cs| - 1;
    forall k | 0 <= k < |cs|
      ensures Respects(Run(s, cs[..k]), cs[k], topic)
    {
      if k < n {
        assert cs[..n][..k] == cs[..k];
        assert Respects(Run(s, cs[..n][..k]), cs[..n][k], topic);
      }
    }
  }

  lemma StepRespects(s: Broker, c: Command, topic: string)
    requires Issues(c) ==> Below(s, c.ms)
    requires !c.RestoreCmd? && !(c.CreateQueueCmd? && c.name == topic)
    ensures Respects(s, c, topic) && Enabled(s, c)
  {
    hide Step, Below, MakeId, NextId, Less;
    PostsElements(s.msgs.keys, s.msgs.vals, topic);
    if Issues(c) {
      NextIdGreatest(s, c.ms);
    }
  }

  /** From an empty broker, whatever else happens: what a consumer has got from a topic that no queue is named after
      is a prefix of what was posted to it, in order. */
  lemma TopicConsumptionIsPrefix(cfg: Config, cs: seq<Command>, topic: string, consumer: string, bound: nat)
    requires cfg.maxRetries >= 0 && topic != DLQ && NoColon(consumer)
    requires OrderedClocks(cs) && ClockMovesOnDigits(cfg, cs)
    requires forall n :: 0 <= n < |cs| && Stamp(cs[n]).Some? ==> Stamp(cs[n]).value <= bound
    requires forall n :: 0 <= n < |cs| ==> !(cs[n].CreateQueueCmd? && cs[n].name == topic)
    requires forall n :: 0 <= n < |cs| ==> LeavesOffset(cs[n], topic, consumer)
    ensures Fetches(Start(cfg), cs, topic, consumer) <= Posts(Run(Start(cfg), cs), topic)
    ensures OffsetOf(Run(Start(cfg), cs), topic, consumer) == |Fetches(Start(cfg), cs, topic, consumer)|
  {
    hide Run, Fetches, Posts, LeavesOffset, TopicReady, RespectfulRun, ClockMovesOnDigits;
    StartReady(cfg, topic);
    assert OffsetOf(Start(cfg), topic, consumer) == 0;
    OrderedClocksRespect(cfg, cs, topic, bound);
    FetchesFollowPosts(Start(cfg), cs, topic, consumer);
  }

  /** In particular for up to 999999 issued ids, however long the clock stands still. */
  lemma SixDigitRunsMove(cfg: Config, cs: seq<Command>)
    requires Run(Start(cfg), cs).counter <= 999_999
    ensures ClockMovesOnDigits(cfg, cs)
  {
    hide Run, GainsDigit;
    forall n | 0 <= n < |cs| && Issues(cs[n])
      ensures !GainsDigit(Run(Start(cfg), cs[..n]).counter + 1)
    {
      NumberSoFar(cfg, cs, n);
      SixDigits(Run(Start(cfg), cs[..n]).counter + 1);
    }
  }

  lemma NumberSoFar(cfg: Config, cs: seq<Command>, n: nat)
    requires n < |cs| && Issues(cs[n])
    ensures Run(Start(cfg), cs[..n]).counter + 1 <= Run(Start(cfg), cs).counter
  {
    hide Run, Step;
    assert cs[..n + 1] + cs[n + 1..] == cs;
    CountersGrow(Run(Start(cfg), cs[..n + 1]), cs[n + 1..]);
    RunSplit(Start(cfg), cs[..n + 1], cs[n + 1..]);
    RunLast(Start(cfg), cs[..n + 1]);
    assert cs[..n + 1][..n] == cs[..n];
    StepRegisters(Run(Start(cfg), cs[..n]), cs[n]);
  }

  lemma {:induction false} CountersGrow(s: Broker, cs: seq<Command>)
    ensures s.counter <= Run(s, cs).counter
  {
    hide Step;
    if cs != [] {
      CountersGrow(s, cs[..|cs| - 1]);
      StepRegisters(Run(s, cs[..|cs| - 1]), cs[|cs| - 1]);
    }
  }
}
