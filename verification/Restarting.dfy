/** Broker and log together: SEND and PUBLISH append what they register, and a new process registers what the log
    kept. */
module Restarting {

  import opened Common
  import opened BigEndian
  import opened Codec
  import opened Formats
  import opened Utf8Text
  import opened StoreModel
  import opened Recovery
  import StoreRuns
  import opened Lifecycle
  import opened LifecycleInvariant
  import opened LifecycleRecords
  import opened LifecycleRuns

  // ---------- Durable fields ----------

  /** What `serialize` writes of a message. */
  function Durable(m: Msg): Record {
    Record(EncodeText(m.id), EncodeText(m.target), EncodeText(m.body), m.timestamp, m.ttl, m.ackTimeout)
  }

  /** The message that `deserialize` makes of a record. */
  function Revive(r: Record): Msg {
    NewMsg(DecodeText(r.id), DecodeText(r.target), DecodeText(r.body), r.timestamp, r.ttl, r.ackTimeout)
  }

  /** A message as it was when it was registered: PENDING, never delivered. */
  predicate Pristine(m: Msg) {
    m == NewMsg(m.id, m.target, m.body, m.timestamp, m.ttl, m.ackTimeout)
  }

  lemma ReviveDurable(m: Msg)
    requires Pristine(m)
    ensures Revive(Durable(m)) == m
  {
    hide EncodeText, DecodeText;
    TextRoundTrip(m.id);
    TextRoundTrip(m.target);
    TextRoundTrip(m.body);
  }

  function Durables(ms: seq<Msg>): (rs: seq<Record>)
    ensures |rs| == |ms|
  {
    seq(|ms|, i requires 0 <= i < |ms| => Durable(ms[i]))
  }

  /** The bytes a message is stored as: the encodings of its id, target and body each behind its length, then the time
      stamp, the TTL and the ACK timeout. */
  lemma StoredExact(m: Msg)
    requires Serialize(Durable(m)).Ok?
    ensures var id, target, body := EncodeText(m.id), EncodeText(m.target), EncodeText(m.body);
            Serialize(Durable(m)) ==
            Ok(Encode(24 + |id| + |target| + |body|, 4) + Encode(|id|, 2) + id + Encode(|target|, 2) + target
               + Encode(|body|, 4) + body
               + Encode(if m.timestamp < 0 then m.timestamp + 18446744073709551616 else m.timestamp, 8)
               + Encode(if m.ttl < 0 then m.ttl + 4294967296 else m.ttl, 4)
               + Encode(if m.ackTimeout < 0 then m.ackTimeout + 4294967296 else m.ackTimeout, 4))
  {
    hide Serialize, EncodeText, Encode, Fits, Utf8;
    SerializeExact(Durable(m));
  }

  // ---------- Commands with their appends ----------

  datatype Joint = Joint(broker: Broker, store: Store)

  /** Start-up registers the recovered messages one after the other. */
  ghost function RestoreAll(s: Broker, rs: seq<Record>): Broker {
    if rs == [] then s
    else
      var n := |rs| - 1;
      Restore(RestoreAll(s, rs[..n]), Revive(rs[n]))
  }

  /** A command with the answer to "is there disk space", should it append; or a clean stop and a new process. */
  datatype Request = Request(c: Command, diskOk: bool) | Reboot

  /** The message that the handler appends: the one it has just registered and answered for. */
  function Appended(s: Broker, c: Command): Option<Msg> {
    match c
    case SendCmd(queue, body, ms, seconds) =>
      if Send(s, queue, body, ms, seconds).1.NewId? then Some(NewMsg(NextId(s, ms), queue, body, seconds, 0, 0))
      else None
    case PublishCmd(topic, topicExists, body, ms, seconds) =>
      if topicExists then Some(NewMsg(NextId(s, ms), topic, body, seconds, 0, 0)) else None
    case _ => None
  }

  ghost function Serve(j: Joint, r: Request): Joint {
    match r
    case Request(c, diskOk) =>
      Joint(Lifecycle.Step(j.broker, c),
            match Appended(j.broker, c)
            case None => j.store
            case Some(m) => Append(j.store, Durable(m), diskOk).0)
    case Reboot =>
      match StoreRuns.Restart(j.store)
      case Ok((store, recovered)) => Joint(RestoreAll(Start(j.broker.cfg), recovered), store)
      case Err(_) => j
  }

  ghost function ServeAll(j: Joint, rs: seq<Request>): Joint {
    if rs == [] then j
    else
      var n := |rs| - 1;
      Serve(ServeAll(j, rs[..n]), rs[n])
  }

  /** The message a request made durable: its append was answered with an offset, and so the client with the id. */
  ghost function MadeDurable(j: Joint, r: Request): seq<Msg> {
    if r.Reboot? then []
    else
      match Appended(j.broker, r.c)
      case None => []
      case Some(m) => if Append(j.store, Durable(m), r.diskOk).1.Ok? then [m] else []
  }

  ghost function AllDurable(j: Joint, rs: seq<Request>): seq<Msg> {
    if rs == [] then []
    else
      var n := |rs| - 1;
      AllDurable(j, rs[..n]) + MadeDurable(ServeAll(j, rs[..n]), rs[n])
  }

  ghost function Begin(cfg: Config, maxSize: int): Joint {
    Joint(Start(cfg), StoreRuns.Fresh(maxSize))
  }

  /** New messages get ids that are not registered, over all lifetimes. */
  ghost predicate FreshRequests(j: Joint, rs: seq<Request>) {
    forall n :: 0 <= n < |rs| && rs[n].Request? ==> Enabled(ServeAll(j, rs[..n]).broker, rs[n].c)
  }

  lemma FreshBefore(j: Joint, rs: seq<Request>)
    requires rs != [] && FreshRequests(j, rs)
    ensures FreshRequests(j, rs[..|rs| - 1])
    ensures rs[|rs| - 1].Request? ==> Enabled(ServeAll(j, rs[..|rs| - 1]).broker, rs[|rs| - 1].c)
  {
    hide ServeAll, Enabled;
    var n := |rs| - 1;
    forall k | 0 <= k < n && rs[..n][k].Request?
      ensures Enabled(ServeAll(j, rs[..n][..k]).broker, rs[..n][k].c)
    {
      assert rs[..n][..k] == rs[..k];
      assert Enabled(ServeAll(j, rs[..k]).broker, rs[k].c);
    }
  }

  /** The handler appends exactly when SEND or PUBLISH is answered with an id, and appends the message it registered
      under that id: new, with its target and body as they were given, and no TTL or ACK timeout of its own. */
  lemma AppendedExact(s: Broker, c: Command)
    requires s.msgs.Valid() && Enabled(s, c)
    ensures Appended(s, c) ==
            match c
            case SendCmd(queue, body, ms, seconds) =>
              (var r := Send(s, queue, body, ms, seconds).1;
               if r.NewId? then Some(Msg(r.id, queue, body, seconds, 0, 0, Pending, 0, "", 0.0, "")) else None)
            case PublishCmd(topic, topicExists, body, ms, seconds) =>
              (var r := Publish(s, topic, topicExists, body, ms, seconds).1;
               if r.NewId? then Some(Msg(r.id, topic, body, seconds, 0, 0, Pending, 0, "", 0.0, "")) else None)
            case _ => None
  {
    hide NextId, CheckBody, Send;
    if c.SendCmd? {
      SendOutcome(s, c.queue, c.body, c.ms, c.seconds);
    }
  }

  /** The handler does append what it registered. */
  lemma AppendedIsRegistered(s: Broker, c: Command)
    requires s.msgs.Valid() && Enabled(s, c) && Appended(s, c).Some?
    ensures var m := Appended(s, c).value;
            && Pristine(m) && m.id !in s.msgs.vals
            && m.id in Lifecycle.Step(s, c).msgs.vals && Lifecycle.Step(s, c).msgs.vals[m.id] == m
  {
    hide NextId, CheckBody, Send;
    if c.SendCmd? {
      SendOutcome(s, c.queue, c.body, c.ms, c.seconds);
      CheckBodyNeverFull(s.cfg, c.body);
    }
  }

  // ---------- What a run has made durable ----------

  /** The durable messages are registered, each under its own id, and still belong to the target they were sent to. */
  ghost predicate Recorded(s: Broker, ms: seq<Msg>) {
    && (forall i, k :: 0 <= i < k < |ms| ==> ms[i].id != ms[k].id)
    && (forall i :: 0 <= i < |ms| ==>
          && Pristine(ms[i])
          && ms[i].id in s.msgs.vals
          && Home(s.msgs.vals[ms[i].id]) == ms[i].target
          && s.msgs.vals[ms[i].id].body == ms[i].body)
  }

  lemma RecordedLater(s: Broker, s': Broker, ms: seq<Msg>)
    requires Recorded(s, ms) && Follows(s, s')
    ensures Recorded(s', ms)
  {
    hide Frozen, SameMessage, Home;
  }

  lemma RecordedOneMore(s: Broker, c: Command, ms: seq<Msg>)
    requires Inv(s) && Enabled(s, c) && Recorded(s, ms) && Appended(s, c).Some?
    ensures Recorded(Lifecycle.Step(s, c), ms + [Appended(s, c).value])
  {
    hide Inv, Follows, Enabled, Appended, Lifecycle.Step, Pristine;
    var m := Appended(s, c).value;
    var s' := Lifecycle.Step(s, c);
    RegistryValid(s);
    AppendedIsRegistered(s, c);
    StepGood(s, c);
    RecordedLater(s, s', ms);
    PristineHome(m);
  }

  lemma PristineHome(m: Msg)
    requires Pristine(m)
    ensures Home(m) == m.target
  {
  }

  lemma DurablesSnoc(ms: seq<Msg>, m: Msg)
    ensures Durables(ms + [m]) == Durables(ms) + [Durable(m)]
  {
  }

  /** What holds between broker and log: the log holds exactly the durable messages, in order, and the broker still
      has each of them. */
  ghost predicate Together(j: Joint, ms: seq<Msg>, log: seq<seq<Stored>>) {
    && Inv(j.broker)
    && StoreRuns.Holds(j.store, log)
    && Flatten(log) == Durables(ms)
    && Recorded(j.broker, ms)
  }

  /** After any run of requests, over any number of process lifetimes, the log holds exactly the messages ever made
      durable, in the order they were sent. */
  lemma {:induction false} ServeAllHolds(cfg: Config, maxSize: int, rs: seq<Request>) returns (log: seq<seq<Stored>>)
    requires cfg.maxRetries >= 0 && FreshRequests(Begin(cfg, maxSize), rs)
    ensures var j := ServeAll(Begin(cfg, maxSize), rs);
            && Together(j, AllDurable(Begin(cfg, maxSize), rs), log)
            && j.store.maxSize == maxSize && j.broker.cfg == cfg
  {
    hide Together, Serve, MadeDurable, Enabled, Begin, FreshRequests;
    if rs == [] {
      log := NothingServed(cfg, maxSize);
    } else {
      var n := |rs| - 1;
      FreshBefore(Begin(cfg, maxSize), rs);
      var before := ServeAllHolds(cfg, maxSize, rs[..n]);
      var j := ServeAll(Begin(cfg, maxSize), rs[..n]);
      var ms := AllDurable(Begin(cfg, maxSize), rs[..n]);
      if rs[n].Reboot? {
        RebootTogether(j, ms, before);
        log := before;
      } else {
        log := ServeTogether(j, rs[n], ms, before);
      }
    }
  }

  lemma NothingServed(cfg: Config, maxSize: int) returns (log: seq<seq<Stored>>)
    requires cfg.maxRetries >= 0
    ensures var j := Begin(cfg, maxSize);
            && ServeAll(j, []) == j && AllDurable(j, []) == []
            && j.store.maxSize == maxSize && j.broker.cfg == cfg && Together(j, [], log)
  {
    hide Flatten, StoreRuns.Holds, Open;
    StartInv(cfg);
    log := StoreRuns.RunHolds(maxSize, []);
  }

  lemma ServeTogether(j: Joint, r: Request, ms: seq<Msg>, before: seq<seq<Stored>>) returns (log: seq<seq<Stored>>)
    requires Together(j, ms, before) && r.Request? && Enabled(j.broker, r.c)
    ensures Together(Serve(j, r), ms + MadeDurable(j, r), log)
    ensures Serve(j, r).store.maxSize == j.store.maxSize && Serve(j, r).broker.cfg == j.broker.cfg
  {
    hide StoreRuns.Holds, Append, Flatten, StoreRuns.AppendLog, Enabled, Appended, Lifecycle.Step, Recorded, Inv,
      Durable, Follows;
    log := before;
    assert ms + [] == ms;
    StepGood(j.broker, r.c);
    FollowsCfg(j.broker, Lifecycle.Step(j.broker, r.c));
    ServedQuietly(j.broker, r.c, ms);
    match Appended(j.broker, r.c) {
      case None =>
      case Some(m) =>
        StoreRuns.HoldsBasics(j.store, before);
        StoreRuns.AppendHolds(j.store, before, Durable(m), r.diskOk);
        log := StoreRuns.AppendLog(j.store, before, Durable(m), r.diskOk);
        RecordedOneMore(j.broker, r.c, ms);
        DurablesSnoc(ms, m);
    }
  }

  lemma FollowsCfg(s0: Broker, s: Broker)
    requires Follows(s0, s)
    ensures s.cfg == s0.cfg
  {
  }

  lemma ServedQuietly(s: Broker, c: Command, ms: seq<Msg>)
    requires Inv(s) && Enabled(s, c) && Recorded(s, ms)
    ensures Recorded(Lifecycle.Step(s, c), ms)
  {
    hide Inv, Follows, Enabled, Recorded, Lifecycle.Step;
    StepGood(s, c);
    RecordedLater(s, Lifecycle.Step(s, c), ms);
  }

  // ---------- A new process ----------

  ghost function MsgIds(ms: seq<Msg>): set<string> {
    set i | 0 <= i < |ms| :: ms[i].id
  }

  /** The registry is exactly `ms`. */
  ghost predicate RegistryIs(s: Broker, ms: seq<Msg>) {
    && s.msgs.vals.Keys == MsgIds(ms)
    && (forall i :: 0 <= i < |ms| ==> ms[i].id in s.msgs.vals && s.msgs.vals[ms[i].id] == ms[i])
  }

  /** Nothing but a registry. */
  ghost predicate Bare(s: Broker, cfg: Config) {
    s.cfg == cfg && s.queues == map[] && s.dlq == [] && s.offsets == map[] && s.counter == 0
  }

  /** Registering distinct pristine messages in an empty broker gives just those, all PENDING and in no queue. */
  lemma {:induction false} RestoreAllExact(cfg: Config, ms: seq<Msg>)
    requires forall i, k :: 0 <= i < k < |ms| ==> ms[i].id != ms[k].id
    requires forall i :: 0 <= i < |ms| ==> Pristine(ms[i])
    ensures var s := RestoreAll(Start(cfg), Durables(ms)); Bare(s, cfg) && RegistryIs(s, ms)
  {
    hide Revive, Durable, Restore, RegistryIs, Bare, Pristine;
    if ms == [] {
      NothingRestored(cfg);
    } else {
      var n := |ms| - 1;
      assert Durables(ms)[..n] == Durables(ms[..n]);
      RestoreAllExact(cfg, ms[..n]);
      ReviveDurable(ms[n]);
      var s := RestoreAll(Start(cfg), Durables(ms[..n]));
      LastIsNew(s, ms);
      RestoreNew(s, ms[n]);
      BareStays(s, Restore(s, ms[n]), cfg);
      RegistryGrows(s, ms, Restore(s, ms[n]));
    }
  }

  lemma NothingRestored(cfg: Config)
    ensures RestoreAll(Start(cfg), Durables([])) == Start(cfg)
    ensures Bare(Start(cfg), cfg) && RegistryIs(Start(cfg), [])
  {
  }

  lemma LastIsNew(s: Broker, ms: seq<Msg>)
    requires ms != [] && forall i, k :: 0 <= i < k < |ms| ==> ms[i].id != ms[k].id
    requires RegistryIs(s, ms[..|ms| - 1])
    ensures ms[|ms| - 1].id !in s.msgs.vals
  {
  }

  lemma BareStays(s: Broker, s': Broker, cfg: Config)
    requires Bare(s, cfg) && s'.cfg == s.cfg && s'.queues == s.queues && s'.dlq == s.dlq && s'.offsets == s.offsets
    requires s'.counter == s.counter
    ensures Bare(s', cfg)
  {
  }

  lemma RegistryGrows(s: Broker, ms: seq<Msg>, s': Broker)
    requires ms != [] && forall i, k :: 0 <= i < k < |ms| ==> ms[i].id != ms[k].id
    requires RegistryIs(s, ms[..|ms| - 1])
    requires s'.msgs.vals == s.msgs.vals[ms[|ms| - 1].id := ms[|ms| - 1]]
    ensures RegistryIs(s', ms)
  {
    var n := |ms| - 1;
    forall id
      ensures id in MsgIds(ms) <==> id in MsgIds(ms[..n]) || id == ms[n].id
    {
      if id in MsgIds(ms) {
        var i :| 0 <= i < |ms| && ms[i].id == id;
        assert i < n ==> ms[..n][i].id == id;
      }
    }
    forall i | 0 <= i < |ms|
      ensures ms[i].id in s'.msgs.vals && s'.msgs.vals[ms[i].id] == ms[i]
    {
      if i < n {
        assert ms[..n][i] == ms[i];
      }
    }
  }

  lemma RestoreNew(s: Broker, m: Msg)
    requires Pristine(m) && m.id !in s.msgs.vals
    ensures var s' := Restore(s, m);
            && s'.cfg == s.cfg && s'.queues == s.queues && s'.dlq == s.dlq && s'.offsets == s.offsets
            && s'.counter == s.counter
            && s'.msgs.vals == s.msgs.vals[m.id := m]
  {
  }

  /** The registry of a new process is as good as any that commands reach. */
  lemma {:induction false} RestoreAllInv(cfg: Config, rs: seq<Record>)
    requires cfg.maxRetries >= 0
    ensures Inv(RestoreAll(Start(cfg), rs))
  {
    hide Inv, Restore, Revive, DecodeText, Follows;
    if rs == [] {
      StartInv(cfg);
    } else {
      var n := |rs| - 1;
      RestoreAllInv(cfg, rs[..n]);
      var s := RestoreAll(Start(cfg), rs[..n]);
      var r := rs[n];
      var c := RestoreCmd(DecodeText(r.id), DecodeText(r.target), DecodeText(r.body), r.timestamp, r.ttl, r.ackTimeout);
      StepGood(s, c);
      RestoreIsStep(s, r);
    }
  }

  lemma RestoreIsStep(s: Broker, r: Record)
    ensures Restore(s, Revive(r)) ==
            Lifecycle.Step(s, RestoreCmd(DecodeText(r.id), DecodeText(r.target), DecodeText(r.body), r.timestamp, r.ttl,
                                         r.ackTimeout))
  {
    hide DecodeText;
  }

  lemma RegistryRecords(s: Broker, ms: seq<Msg>)
    requires RegistryIs(s, ms) && forall i, k :: 0 <= i < k < |ms| ==> ms[i].id != ms[k].id
    requires forall i :: 0 <= i < |ms| ==> Pristine(ms[i])
    ensures Recorded(s, ms)
  {
    forall i | 0 <= i < |ms|
      ensures Home(ms[i]) == ms[i].target
    {
      PristineHome(ms[i]);
    }
  }

  lemma RebootOutcome(j: Joint, ms: seq<Msg>, log: seq<seq<Stored>>)
    requires Together(j, ms, log)
    ensures StoreRuns.Restart(j.store) == Ok((Close(j.store), Durables(ms)))
    ensures StoreRuns.Holds(Close(j.store), log)
    ensures Serve(j, Reboot) == Joint(RestoreAll(Start(j.broker.cfg), Durables(ms)), Close(j.store))
  {
    hide StoreRuns.Holds, Flatten, Durable, Inv, RestoreAll, Close, StoreRuns.Restart, Pristine, Home;
    DurableIdsDiffer(ms);
    StoreRuns.RestartHolds(j.store, log);
    StoreRuns.RestartRecovers(j.store, log);
  }

  lemma RetriesSane(s: Broker)
    requires Inv(s)
    ensures s.cfg.maxRetries >= 0
  {
  }

  lemma RebootTogether(j: Joint, ms: seq<Msg>, log: seq<seq<Stored>>)
    requires Together(j, ms, log)
    ensures Together(Serve(j, Reboot), ms + MadeDurable(j, Reboot), log)
    ensures Serve(j, Reboot).store.maxSize == j.store.maxSize && Serve(j, Reboot).broker.cfg == j.broker.cfg
  {
    hide StoreRuns.Holds, Flatten, Durable, RestoreAll, StoreRuns.Restart, Serve, RegistryIs, Home, Pristine, Inv;
    RebootOutcome(j, ms, log);
    RetriesSane(j.broker);
    RestoreAllExact(j.broker.cfg, ms);
    RestoreAllInv(j.broker.cfg, Durables(ms));
    RegistryRecords(RestoreAll(Start(j.broker.cfg), Durables(ms)), ms);
    assert ms + [] == ms;
  }

  /** A clean restart, after any run with any number of restarts before it: the new process recovers every message ever
      made durable, in the order sent, and its registry is exactly those messages as they were when they were sent.
      Each is PENDING and in no queue, whatever had become of it: acknowledged and dead messages come back too. */
  lemma RestartRestores(cfg: Config, maxSize: int, rs: seq<Request>)
    requires cfg.maxRetries >= 0 && FreshRequests(Begin(cfg, maxSize), rs)
    ensures var j := ServeAll(Begin(cfg, maxSize), rs);
            var ms := AllDurable(Begin(cfg, maxSize), rs);
            var s := Serve(j, Reboot).broker;
            && StoreRuns.Restart(j.store) == Ok((Close(j.store), Durables(ms)))
            && Bare(s, cfg) && RegistryIs(s, ms)
            && (forall i :: 0 <= i < |ms| ==>
                  && Unplaced(s, ms[i].id)
                  && ms[i].id in j.broker.msgs.vals && Home(j.broker.msgs.vals[ms[i].id]) == ms[i].target
                  && j.broker.msgs.vals[ms[i].id].body == ms[i].body)
  {
    hide StoreRuns.Holds, StoreRuns.Restart, Flatten, ServeAll, AllDurable, Durable, Home, Inv, Serve, FreshRequests,
      Begin;
    var log := ServeAllHolds(cfg, maxSize, rs);
    var ms := AllDurable(Begin(cfg, maxSize), rs);
    var j := ServeAll(Begin(cfg, maxSize), rs);
    RebootOutcome(j, ms, log);
    RestoreAllExact(cfg, ms);
  }

  /** When the append of a SEND fails the client is told so, but the message stays in its queue: it will be delivered,
      and be gone after a restart. */
  lemma FailedAppendStaysQueued(j: Joint, r: Request)
    requires Inv(j.broker) && r.Request? && r.c.SendCmd? && Enabled(j.broker, r.c)
    requires Appended(j.broker, r.c).Some?
    requires Append(j.store, Durable(Appended(j.broker, r.c).value), r.diskOk).1.Err?
    ensures MadeDurable(j, r) == []
    ensures var id := Appended(j.broker, r.c).value.id;
            var s := Serve(j, r).broker;
            && r.c.queue in s.queues && s.queues[r.c.queue].items == j.broker.queues[r.c.queue].items + [id]
            && id in s.msgs.vals && s.msgs.vals[id].status == Pending
  {
    hide Inv, Append, NextId, CheckBody, Send, Durable;
    RegistryValid(j.broker);
    SendOutcome(j.broker, r.c.queue, r.c.body, r.c.ms, r.c.seconds);
    CheckBodyNeverFull(j.broker.cfg, r.c.body);
  }

  lemma DurableIdsDiffer(ms: seq<Msg>)
    requires forall i, k :: 0 <= i < k < |ms| ==> ms[i].id != ms[k].id
    ensures NoDup(StoreRuns.RecordIds(Durables(ms)))
  {
    hide EncodeText, DecodeText;
    var ids := StoreRuns.RecordIds(Durables(ms));
    forall i, k | 0 <= i < k < |ids|
      ensures ids[i] != ids[k]
    {
      assert ids[i] == EncodeText(ms[i].id) && ids[k] == EncodeText(ms[k].id);
      TextRoundTrip(ms[i].id);
      TextRoundTrip(ms[k].id);
    }
  }
}
