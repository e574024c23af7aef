/** What each action makes of one record, and what it leaves alone. */
module LifecycleRecords {

  import opened Common
  import opened Dicts
  import opened Lifecycle

  /** The fields of a message after one more failed delivery. */
  function FailedMsg(cfg: Config, m: Msg): Msg {
    var m1 := m.(retryCount := m.retryCount + 1);
    if m1.retryCount > cfg.maxRetries then Aged(m1) else Release(m1)
  }

  lemma FailShape(s: Broker, id: string)
    requires id in s.msgs.vals
    ensures var s' := Fail(s, id);
            && s'.cfg == s.cfg && s'.queues == s.queues && s'.offsets == s.offsets && s'.counter == s.counter
            && s'.msgs.keys == s.msgs.keys
            && s'.msgs.vals == s.msgs.vals[id := FailedMsg(s.cfg, s.msgs.vals[id])]
            && s'.dlq == (if s.msgs.vals[id].retryCount < s.cfg.maxRetries || id in s.dlq then s.dlq else s.dlq + [id])
  {
    var m1 := s.msgs.vals[id].(retryCount := s.msgs.vals[id].retryCount + 1);
    assert s.msgs.vals[id := m1][id := Aged(m1)] == s.msgs.vals[id := Aged(m1)];
  }

  lemma UnburyShape(s: Broker, id: string)
    requires id in s.msgs.vals
    ensures var s' := Unbury(s, id);
            && s'.cfg == s.cfg && s'.queues == s.queues && s'.offsets == s.offsets && s'.counter == s.counter
            && s'.msgs.keys == s.msgs.keys
            && s'.msgs.vals == s.msgs.vals[id := Revived(s.msgs.vals[id])]
            && s'.dlq == Remove(s.dlq, id)
  {
  }

  /** The outcomes of SEND, field by field. */
  lemma SendOutcome(s: Broker, queue: string, body: string, ms: nat, seconds: int)
    requires s.msgs.Valid() && NextId(s, ms) !in s.msgs.vals
    ensures var (s', r) := Send(s, queue, body, ms, seconds);
            var id := NextId(s, ms);
            var s1 := Register(s.(counter := s.counter + 1), NewMsg(id, queue, body, seconds, 0, 0));
            && s'.cfg == s.cfg && s'.counter == s.counter + 1 && s'.offsets == s.offsets && s'.dlq == s.dlq
            && match CheckBody(s.cfg, body)
               case Err(e) => s'.msgs == s1.msgs && s'.queues == s.queues && r == Error(e)
               case Ok(_) =>
                 if queue !in s.queues then s'.msgs == s1.msgs && s'.queues == s.queues && r == Error(QueueNotFound)
                 else if |s.queues[queue].items| >= s.queues[queue].maxSize then
                   s'.msgs == s.msgs && s'.queues == s.queues && r == Error(QueueFull)
                 else
                   && s'.msgs == s1.msgs && r == NewId(id)
                   && s'.queues == s.queues[queue := s.queues[queue].(items := s.queues[queue].items + [id])]
  {
    hide CheckBody, NextId;
    CheckBodyNeverFull(s.cfg, body);
    PutPop(s.msgs, NextId(s, ms), NewMsg(NextId(s, ms), queue, body, seconds, 0, 0));
  }

  lemma CheckBodyNeverFull(cfg: Config, body: string)
    ensures CheckBody(cfg, body) != Err(QueueFull)
  {
  }
}
