/** Whole runs of the store: appends across segment rolls, clean restarts, and a crash. */
module StoreRuns {

  import opened Common
  import opened BigEndian
  import opened Codec
  import opened Order
  import opened Dicts
  import opened StoreModel
  import opened Recovery

  // ---------- Segment names ----------

  lemma NthLess(i: nat, j: nat)
    requires i < j < MAX_SEGMENTS
    ensures Less(Nth(i), Nth(j))
  {
    assert Pow10(4) == 10000;
    WidthOf(i + 1, 4);
    WidthOf(j + 1, 4);
    DigitsLess(i + 1, j + 1, 4);
    LessSamePrefix("mq-", Padded(i + 1, 4), Padded(j + 1, 4));
    LessExtended("mq-" + Padded(i + 1, 4), "mq-" + Padded(j + 1, 4), ".log", ".log");
  }

  lemma NthInjective(i: nat, j: nat)
    requires i < MAX_SEGMENTS && j < MAX_SEGMENTS && Nth(i) == Nth(j)
    ensures i == j
  {
    hide Nth;
    LessIrreflexive(Nth(i));
    if i < j {
      NthLess(i, j);
    } else if j < i {
      NthLess(j, i);
    }
  }

  function NameSet(n: nat): set<string> {
    set x | x in SegmentNames(n)
  }

  lemma NamesSorted(n: nat)
    requires n <= MAX_SEGMENTS
    ensures Sorted(SegmentNames(n))
  {
    hide Nth;
    forall i, j | 0 <= i < j < n
      ensures Less(SegmentNames(n)[i], SegmentNames(n)[j])
    {
      NthLess(i, j);
    }
  }

  lemma NameIsSegmentFile(i: nat)
    ensures IsSegmentFile(Nth(i))
  {
    var x := Nth(i);
    assert x[..3] == "mq-" && x[|x| - 4..] == ".log";
  }

  /** The directory listing of the first `n` segments, in string order, is their creation order. */
  lemma ListingIsCreationOrder(files: Files, n: nat)
    requires files.Keys == NameSet(n) && n <= MAX_SEGMENTS
    ensures Listing(SegmentFiles(files)) == SegmentNames(n)
  {
    hide Nth, IsSegmentFile;
    forall x
      ensures x in SegmentNames(n) <==> x in SegmentFiles(files)
    {
      if x in SegmentNames(n) {
        var i :| 0 <= i < n && SegmentNames(n)[i] == x;
        NameIsSegmentFile(i);
      }
    }
    NamesSorted(n);
    SortedUnique(Listing(SegmentFiles(files)), SegmentNames(n));
  }

  // ---------- The invariant ----------

  /** The rolling rule: every segment but the last is full, and none was full before its last record. */
  ghost predicate Rolled(log: seq<seq<Stored>>, maxSize: int) {
    && (forall i :: 0 <= i < |log| - 1 ==> |LogBytes(log[i])| >= maxSize)
    && (forall i :: 0 <= i < |log| && log[i] != [] && maxSize > 0 ==>
          |LogBytes(log[i][..|log[i]| - 1])| < maxSize)
  }

  /** The segment manager and the directory know the same `n` segments, the last one active. */
  ghost predicate Directory(st: Store, n: nat) {
    && 1 <= n <= MAX_SEGMENTS
    && st.segments == SegmentNames(n)
    && st.active == Some(Nth(n - 1))
    && st.files.Keys == NameSet(n)
  }

  /** The store holds exactly the records `log`, segment by segment. */
  ghost predicate Holds(st: Store, log: seq<seq<Stored>>) {
    && Directory(st, |log|)
    && WholeFiles(st.files, log)
    && st.activeSize == |LogBytes(log[|log| - 1])|
    && st.index == PutAll(Empty(), PlacedLog(log))
    && Rolled(log, st.maxSize)
  }

  lemma FreshHolds(maxSize: int)
    ensures var st := Open(map[], Missing, maxSize);
            st.Ok? && Holds(st.value, [[]]) && st.value.maxSize == maxSize
  {
    hide SegmentName;
    ListingIsCreationOrder(map[], 0);
    assert SegmentNames(1) == [Nth(0)];
    assert NameSet(1) == {Nth(0)};
    assert PlacedLog([[]]) == [];
  }

  lemma NextName(n: nat)
    requires n < MAX_SEGMENTS
    ensures Nth(n) !in NameSet(n)
    ensures NameSet(n + 1) == NameSet(n) + {Nth(n)}
    ensures SegmentNames(n + 1) == SegmentNames(n) + [Nth(n)]
    ensures forall i :: 0 <= i < n ==> Nth(i) in NameSet(n)
  {
    hide Nth;
    forall i | 0 <= i < n
      ensures SegmentNames(n)[i] != Nth(n)
    {
      if Nth(i) == Nth(n) {
        NthInjective(i, n);
      }
    }
    forall i | 0 <= i < n
      ensures Nth(i) in NameSet(n)
    {
      assert SegmentNames(n)[i] in NameSet(n);
    }
    assert SegmentNames(n + 1) == SegmentNames(n) + [Nth(n)];
  }

  lemma RollDirectory(st: Store, n: nat)
    requires Directory(st, n) && n < MAX_SEGMENTS
    ensures Roll(st).Ok? && Directory(Roll(st).value, n + 1)
    ensures Roll(st).value.files == st.files[Nth(n) := []]
    ensures Nth(n) !in st.files
  {
    hide SegmentName, SegmentNames, NameSet;
    NextName(n);
  }

  lemma RollHolds(st: Store, log: seq<seq<Stored>>)
    requires Holds(st, log) && st.activeSize >= st.maxSize && |log| < MAX_SEGMENTS
    ensures Roll(st).Ok? && Holds(Roll(st).value, log + [[]])
  {
    hide Nth, SegmentName, PlacedFrom, PutAll, Directory, LogBytes;
    var n := |log|;
    RollDirectory(st, n) by {
      assert Directory(st, n);
    }
    assert LogBytes([]) == [] by {
      EmptyLog();
    }
    assert (log + [[]])[..n] == log;
    assert PlacedLog(log + [[]]) == PlacedLog(log) + PlacedFrom(Nth(n), 0, []) == PlacedLog(log);
  }

  lemma EmptyLog()
    ensures LogBytes([]) == []
  {
  }

  /** The log after `r` joins its last segment. */
  function Extended(log: seq<seq<Stored>>, r: Stored): seq<seq<Stored>>
    requires log != []
  {
    log[..|log| - 1] + [log[|log| - 1] + [r]]
  }

  lemma PlacedLogExtended(log: seq<seq<Stored>>, r: Stored)
    requires log != []
    ensures PlacedLog(Extended(log, r)) ==
            PlacedLog(log) + [Placed(r, Location(Nth(|log| - 1), |LogBytes(log[|log| - 1])|))]
    ensures Flatten(Extended(log, r)) == Flatten(log) + [r]
  {
    hide Nth, LogBytes, Fits;
    var n := |log| - 1;
    assert Extended(log, r)[..n] == log[..n];
    PlacedFromAppend(Nth(n), 0, log[n], r);
  }

  lemma LogBytesExtended(rs: seq<Stored>, r: Stored)
    ensures LogBytes(rs + [r]) == LogBytes(rs) + Frame(r)
  {
    hide Frame, Fits;
    LogBytesAppend(rs, [r]);
    assert LogBytes([r]) == Frame(r) + LogBytes([r][1..]) == Frame(r);
  }

  lemma ExtendedRolled(log: seq<seq<Stored>>, r: Stored, maxSize: int)
    requires log != [] && Rolled(log, maxSize)
    requires maxSize > 0 ==> |LogBytes(log[|log| - 1])| < maxSize
    ensures Rolled(Extended(log, r), maxSize)
  {
    hide LogBytes, Fits;
    var n := |log| - 1;
    var log' := Extended(log, r);
    assert log'[n][..|log'[n]| - 1] == log[n];
    assert forall i :: 0 <= i < n ==> log'[i] == log[i];
  }

  lemma WriteFiles(files: Files, log: seq<seq<Stored>>, r: Stored)
    requires 1 <= |log| <= MAX_SEGMENTS && WholeFiles(files, log)
    ensures WholeFiles(files[Nth(|log| - 1) := LogBytes(log[|log| - 1]) + Frame(r)], Extended(log, r))
  {
    hide Nth, LogBytes, Frame, Fits;
    LogBytesExtended(log[|log| - 1], r);
    forall i | 0 <= i < |log| - 1
      ensures Nth(i) != Nth(|log| - 1)
    {
      if Nth(i) == Nth(|log| - 1) {
        NthInjective(i, |log| - 1);
      }
    }
  }

  lemma WriteDirectory(st: Store, n: nat, id: bytes, data: bytes)
    requires Directory(st, n)
    ensures Directory(Write(st, id, data), n)
    ensures Nth(n - 1) in st.files
  {
    hide Nth;
    assert SegmentNames(n)[n - 1] in NameSet(n);
  }

  lemma WriteHolds(st: Store, log: seq<seq<Stored>>, r: Stored)
    requires Holds(st, log) && (st.maxSize > 0 ==> st.activeSize < st.maxSize)
    ensures Holds(Write(st, r.id, Frame(r)), Extended(log, r))
  {
    hide Nth, Directory, LogBytes, Frame, Fits, Rolled, PlacedLog, WholeFiles, Flatten, PutAll;
    var n := |log|;
    assert 1 <= n <= MAX_SEGMENTS && st.active == Some(Nth(n - 1)) by {
      ActiveIsLast(st, n);
    }
    WriteDirectory(st, n, r.id, Frame(r));
    LastFile(st.files, log);
    WriteFiles(st.files, log, r);
    ExtendedRolled(log, r, st.maxSize);
    LogBytesExtended(log[n - 1], r);
    PlacedLogExtended(log, r);
    PutAllSnoc(PlacedLog(log), Placed(r, Location(Nth(n - 1), |LogBytes(log[n - 1])|)));
  }

  lemma PutAllSnoc(ps: seq<Placed>, p: Placed)
    ensures PutAll(Empty(), ps + [p]) == PutAll(Empty(), ps).Put(p.rec.id, p.at)
  {
    assert (ps + [p])[..|ps|] == ps;
  }

  lemma ActiveIsLast(st: Store, n: nat)
    requires Directory(st, n)
    ensures 1 <= n <= MAX_SEGMENTS && st.active == Some(Nth(n - 1))
  {
  }

  lemma LastFile(files: Files, log: seq<seq<Stored>>)
    requires log != [] && WholeFiles(files, log)
    ensures Nth(|log| - 1) in files && files[Nth(|log| - 1)] == LogBytes(log[|log| - 1])
  {
    var n := |log| - 1;
    assert Nth(n) in files && files[Nth(n)] == LogBytes(log[n]);
  }

  // ---------- Operations keep it ----------

  /** The log after an append, whether it succeeds, fails, or fails after rolling. */
  function AppendLog(st: Store, log: seq<seq<Stored>>, rec: Record, diskOk: bool): (log': seq<seq<Stored>>)
    requires log != []
    ensures log' != []
  {
    if !Fits(rec) then log
    else if st.activeSize < st.maxSize then (if diskOk then Extended(log, rec) else log)
    else if |log| >= MAX_SEGMENTS then log
    else if diskOk then Extended(log + [[]], rec) else log + [[]]
  }

  /** An append keeps the store exact. It succeeds precisely for an encodable record whose fields fit, with disk
      space, unless a new segment is needed and the limit is reached; then it adds the record at the end of the
      log and returns its offset. A failed append adds nothing. */
  lemma AppendHolds(st: Store, log: seq<seq<Stored>>, rec: Record, diskOk: bool)
    requires Holds(st, log)
    ensures var (st', r) := Append(st, rec, diskOk);
            var log' := AppendLog(st, log, rec, diskOk);
            && Holds(st', log') && st'.maxSize == st.maxSize
            && (r.Ok? <==> Fits(rec) && diskOk && (st.activeSize < st.maxSize || |log| < MAX_SEGMENTS))
            && (r.Ok? ==> PlacedLog(log') == PlacedLog(log) + [Placed(rec, Location(Nth(|log'| - 1), r.value))])
            && (r.Err? ==> PlacedLog(log') == PlacedLog(log))
            && Flatten(log') == Flatten(log) + (if r.Ok? then [rec] else [])
  {
    hide Holds, Nth, SegmentName, LogBytes, Frame, PlacedLog, Flatten, Roll, Write;
    SerializeOkIffFits(rec);
    HoldsBasics(st, log);
    if Fits(rec) && st.activeSize < st.maxSize {
      AppendWrites(st, log, rec, diskOk);
    } else if Fits(rec) && |log| < MAX_SEGMENTS {
      RollHolds(st, log);
      EmptySegmentAddsNothing(log);
      var rolled := Roll(st).value;
      HoldsBasics(rolled, log + [[]]);
      RollResets(st);
      AppendWrites(rolled, log + [[]], rec, diskOk);
    } else if Fits(rec) {
      RollRefused(st);
    }
  }

  lemma SerializeOkIffFits(rec: Record)
    ensures Serialize(rec).Ok? <==> Fits(rec)
    ensures Fits(rec) ==> Serialize(rec) == Ok(Frame(rec))
  {
  }

  lemma HoldsBasics(st: Store, log: seq<seq<Stored>>)
    requires Holds(st, log)
    ensures 1 <= |log| <= MAX_SEGMENTS && st.segments == SegmentNames(|log|) && st.files.Keys == NameSet(|log|)
    ensures st.active == Some(Nth(|log| - 1)) && Contents(st.files, Nth(|log| - 1)) == LogBytes(log[|log| - 1])
    ensures st.activeSize == |LogBytes(log[|log| - 1])|
  {
    LastFile(st.files, log);
  }

  lemma RollResets(st: Store)
    requires |st.segments| < MAX_SEGMENTS
    ensures Roll(st).Ok? && Roll(st).value.activeSize == 0 && Roll(st).value.maxSize == st.maxSize
  {
  }

  lemma RollRefused(st: Store)
    requires |st.segments| >= MAX_SEGMENTS
    ensures Roll(st) == Err(TooManySegments)
  {
  }

  lemma EmptySegmentAddsNothing(log: seq<seq<Stored>>)
    ensures Flatten(log + [[]]) == Flatten(log)
    ensures PlacedLog(log + [[]]) == PlacedLog(log)
  {
    hide Nth;
    assert (log + [[]])[..|log|] == log;
    assert PlacedLog(log + [[]]) == PlacedLog(log) + PlacedFrom(Nth(|log|), 0, []) == PlacedLog(log);
    assert Flatten(log + [[]]) == Flatten(log) + [];
  }

  lemma AppendWrites(ready: Store, log: seq<seq<Stored>>, rec: Stored, diskOk: bool)
    requires Holds(ready, log) && (ready.maxSize > 0 ==> ready.activeSize < ready.maxSize)
    ensures ready.active.Some?
    ensures diskOk ==> Holds(Write(ready, rec.id, Frame(rec)), Extended(log, rec))
    ensures PlacedLog(Extended(log, rec)) ==
            PlacedLog(log) + [Placed(rec, Location(Nth(|log| - 1), |Contents(ready.files, ready.active.value)|))]
    ensures Flatten(Extended(log, rec)) == Flatten(log) + [rec]
    ensures Write(ready, rec.id, Frame(rec)).maxSize == ready.maxSize
  {
    hide Holds, Nth, SegmentName, LogBytes, Frame, PlacedLog, Flatten;
    HoldsBasics(ready, log);
    WriteHolds(ready, log, rec);
    PlacedLogExtended(log, rec);
  }

  // ---------- Reading an indexed log ----------

  function Ids(ps: seq<Placed>): (ids: seq<bytes>)
    ensures |ids| == |ps|
  {
    seq(|ps|, i requires 0 <= i < |ps| => ps[i].rec.id)
  }

  function RecordIds(rs: seq<Record>): (ids: seq<bytes>)
    ensures |ids| == |rs|
  {
    seq(|rs|, i requires 0 <= i < |rs| => rs[i].id)
  }

  /** The index lists each id once; it is as long as the log exactly when no id repeats, and then in log order. */
  lemma {:induction false} IndexKeys(ps: seq<Placed>)
    ensures var d := PutAll(Empty(), ps);
            && d.Valid()
            && (forall id :: id in d.keys <==> id in Ids(ps))
            && |d.keys| <= |ps|
            && (NoDup(Ids(ps)) ==> d.keys == Ids(ps))
            && (|d.keys| == |ps| ==> NoDup(Ids(ps)))
  {
    if ps != [] {
      var n := |ps| - 1;
      IndexKeys(ps[..n]);
      var d := PutAll(Empty(), ps[..n]);
      var id := ps[n].rec.id;
      assert Ids(ps) == Ids(ps[..n]) + [id];
      NoDupSnoc(Ids(ps[..n]), id);
    }
  }

  lemma {:induction false} LastPlacedIfDistinct(ps: seq<Placed>, i: nat)
    requires NoDup(Ids(ps)) && i < |ps|
    ensures LastPlaced(ps, ps[i].rec.id) == Some(ps[i])
  {
    var n := |ps| - 1;
    assert Ids(ps)[i] == ps[i].rec.id && Ids(ps)[n] == ps[n].rec.id;
    if i < n {
      assert forall k :: 0 <= k < n ==> Ids(ps)[k] == Ids(ps[..n])[k];
      LastPlacedIfDistinct(ps[..n], i);
    }
  }

  lemma {:induction false} LastPlacedExists(ps: seq<Placed>, id: bytes)
    requires id in Ids(ps)
    ensures LastPlaced(ps, id).Some?
  {
    var n := |ps| - 1;
    if ps[n].rec.id != id {
      assert Ids(ps) == Ids(ps[..n]) + [ps[n].rec.id];
      LastPlacedExists(ps[..n], id);
    }
  }

  lemma EntryReads(files: Files, ps: seq<Placed>, id: bytes)
    requires forall p <- ps :: ReadAt(files, p.at) == Found(p.rec)
    requires id in Ids(ps)
    ensures PutAll(Empty(), ps).Get(id).Some? && LastPlaced(ps, id).Some?
    ensures ReadAt(files, PutAll(Empty(), ps).Get(id).value) == Found(LastPlaced(ps, id).value.rec)
  {
    hide PutAll, LastPlaced, ReadAt;
    LastPlacedExists(ps, id);
    PutAllGet(Empty(), ps, id);
    LastRecordOfPlaced(ps, id);
  }

  /** Recovery through the index returns, for each id in first-append order, the last record under it. */
  lemma {:induction false} ReadEntriesExact(files: Files, ps: seq<Placed>, n: nat)
    requires forall p <- ps :: ReadAt(files, p.at) == Found(p.rec)
    requires n <= |PutAll(Empty(), ps).keys|
    ensures var d := PutAll(Empty(), ps);
            var r := ReadEntries(files, d, n);
            && r.Ok? && |r.value| == n
            && (forall i :: 0 <= i < n ==>
                  LastPlaced(ps, d.keys[i]).Some? && r.value[i] == LastPlaced(ps, d.keys[i]).value.rec)
  {
    hide PutAll, LastPlaced, ReadAt, Ids;
    if n > 0 {
      ReadEntriesExact(files, ps, n - 1);
      IndexKeys(ps);
      var id := PutAll(Empty(), ps).keys[n - 1];
      assert id in PutAll(Empty(), ps).keys;
      EntryReads(files, ps, id);
    }
  }

  /** With distinct ids the entries of an index are the records it was built from, in order. */
  lemma EntriesAreRecords(files: Files, ps: seq<Placed>)
    requires forall p <- ps :: ReadAt(files, p.at) == Found(p.rec)
    requires NoDup(Ids(ps))
    ensures |PutAll(Empty(), ps).keys| == |ps|
    ensures ReadEntries(files, PutAll(Empty(), ps), |ps|) == Ok(Records(ps))
  {
    hide PutAll, LastPlaced, ReadAt;
    var d := PutAll(Empty(), ps);
    IndexKeys(ps);
    ReadEntriesExact(files, ps, |ps|);
    forall i | 0 <= i < |ps|
      ensures ReadEntries(files, d, |ps|).value[i] == Records(ps)[i]
    {
      assert d.keys[i] == ps[i].rec.id;
      LastPlacedIfDistinct(ps, i);
    }
    assert ReadEntries(files, d, |ps|).value == Records(ps);
  }

  /** A pass over the index built from `ps`: as long as `ps`, and then equal to it, exactly when no id repeats. */
  lemma IndexPass(files: Files, ps: seq<Placed>)
    requires forall p <- ps :: ReadAt(files, p.at) == Found(p.rec)
    ensures var d := PutAll(Empty(), ps);
            var r := ReadEntries(files, d, |d.keys|);
            && r.Ok?
            && |r.value| <= |ps|
            && (|r.value| == |ps| <==> NoDup(Ids(ps)))
            && (NoDup(Ids(ps)) ==> r.value == Records(ps))
            && (|d.keys| > 0 <==> ps != [])
  {
    hide PutAll, ReadAt, ReadEntries, NoDup;
    IndexKeys(ps);
    ReadEntriesExact(files, ps, |PutAll(Empty(), ps).keys|);
    if NoDup(Ids(ps)) {
      EntriesAreRecords(files, ps);
    }
    if ps != [] {
      assert Ids(ps)[0] in Ids(ps);
    }
  }

  // ---------- Restart ----------

  /** `close()`, a new process on the directory, `recover()`. */
  ghost function Restart(st: Store): Result<(Store, seq<Record>), StoreError> {
    var closed := Close(st);
    var started :- Open(closed.files, closed.indexFile, st.maxSize);
    var (recovered, messages) := Recover(started);
    match messages
    case Ok(rs) => Ok((recovered, rs))
    case Err(e) => Err(e)
  }

  /** A new process on the files of a log sees its segments in order and resumes the last one. */
  lemma OpenResumes(files: Files, indexFile: IndexFile, maxSize: int, n: nat)
    requires 1 <= n <= MAX_SEGMENTS && files.Keys == NameSet(n)
    ensures Open(files, indexFile, maxSize) ==
            Ok(Store(files, indexFile, SegmentNames(n), Some(Nth(n - 1)), |Contents(files, Nth(n - 1))|, Empty(),
                     maxSize))
  {
    hide SegmentName;
    ListingIsCreationOrder(files, n);
  }

  lemma ScanHeld(st: Store, log: seq<seq<Stored>>)
    requires Holds(st, log)
    ensures ScanAll(st.files, SegmentNames(|log|)) == PlacedLog(log)
    ensures Records(PlacedLog(log)) == Flatten(log)
    ensures forall p <- PlacedLog(log) :: ReadAt(st.files, p.at) == Found(p.rec)
  {
    hide ScanAll, PlacedLog, Flatten, SegmentNames, ReadAt;
    ScanWholeFiles(st.files, log);
    RecordsOfPlacedLog(log);
    ScanAllReads(st.files, SegmentNames(|log|));
  }

  /** After a clean restart everything is as before; the recovered messages are those the index lists. */
  lemma RestartHolds(st: Store, log: seq<seq<Stored>>)
    requires Holds(st, log)
    ensures Restart(st).Ok? && Restart(st).value.0 == Close(st) && Holds(Restart(st).value.0, log)
    ensures Restart(st).value.1 == ReadEntries(st.files, st.index, |st.index.keys|).value
  {
    hide ScanAll, PlacedLog, SegmentNames, ReadAt, Nth, LogBytes, NameSet, Holds, Flatten, PutAll, ReadEntries, NoDup;
    var ps := PlacedLog(log);
    CloseHolds(st, log);
    HoldsBasics(st, log);
    OpenResumes(st.files, Saved(st.index), st.maxSize, |log|);
    ScanHeld(st, log);
    IndexPass(st.files, ps);
    EmptyIndex(ps);
    NoEntries(st.files);
  }

  /** With distinct ids a clean restart recovers the whole log, in order. */
  lemma RestartRecovers(st: Store, log: seq<seq<Stored>>)
    requires Holds(st, log) && NoDup(RecordIds(Flatten(log)))
    ensures Restart(st).Ok? && Restart(st).value.1 == Flatten(log)
  {
    hide ScanAll, PlacedLog, SegmentNames, ReadAt, Holds, Flatten, PutAll, ReadEntries, NoDup, Restart;
    var ps := PlacedLog(log);
    CloseHolds(st, log);
    RestartHolds(st, log);
    ScanHeld(st, log);
    IndexPass(st.files, ps);
    assert Ids(ps) == RecordIds(Records(ps));
  }

  lemma NoEntries(files: Files)
    ensures ReadEntries(files, Empty(), 0) == Ok([])
  {
  }

  lemma EmptyIndex(ps: seq<Placed>)
    ensures ps == [] ==> PutAll(Empty(), ps) == Empty() && PutAll(PutAll(Empty(), ps), ps) == Empty()
  {
  }

  lemma CloseHolds(st: Store, log: seq<seq<Stored>>)
    requires Holds(st, log)
    ensures Holds(Close(st), log)
    ensures st.index == PutAll(Empty(), PlacedLog(log))
  {
  }

  /** The two recovery paths return the same messages in the same order exactly when no id was appended twice;
      the scan always returns the whole log. */
  lemma RecoveryPathsAgree(st: Store, log: seq<seq<Stored>>)
    requires Holds(st, log)
    ensures var byIndex := Open(st.files, Saved(st.index), st.maxSize);
            var byScan := Open(st.files, Missing, st.maxSize);
            && byIndex.Ok? && byScan.Ok?
            && Recover(byScan.value).1 == Ok(Flatten(log))
            && (Recover(byIndex.value).1 == Recover(byScan.value).1 <==> NoDup(RecordIds(Flatten(log))))
  {
    hide ScanAll, PlacedLog, SegmentNames, ReadAt, Nth, LogBytes, Rolled, WholeFiles, NameSet, Flatten, Holds,
      LastPlaced, PutAll;
    var ps := PlacedLog(log);
    HoldsOpens(st, log);
    ScanHeld(st, log);
    IndexPass(st.files, ps);
    assert Ids(ps) == RecordIds(Records(ps));
  }

  lemma HoldsOpens(st: Store, log: seq<seq<Stored>>)
    requires Holds(st, log)
    ensures st.index == PutAll(Empty(), PlacedLog(log))
    ensures forall indexFile :: var r := Open(st.files, indexFile, st.maxSize);
              r.Ok? && r.value.files == st.files && r.value.indexFile == indexFile &&
              r.value.segments == SegmentNames(|log|) && r.value.index == Empty()
  {
    forall indexFile
      ensures var r := Open(st.files, indexFile, st.maxSize);
              r.Ok? && r.value.files == st.files && r.value.indexFile == indexFile &&
              r.value.segments == SegmentNames(|log|) && r.value.index == Empty()
    {
      OpenResumes(st.files, indexFile, st.maxSize, |log|);
    }
  }

  // ---------- Runs ----------

  datatype Op = AppendOp(rec: Record, diskOk: bool) | RestartOp

  ghost function Step(st: Store, op: Op): Store {
    match op
    case AppendOp(rec, diskOk) => Append(st, rec, diskOk).0
    case RestartOp => var r := Restart(st); if r.Ok? then r.value.0 else st
  }

  ghost function Run(st: Store, ops: seq<Op>): Store {
    if ops == [] then st
    else
      var n := |ops| - 1;
      Step(Run(st, ops[..n]), ops[n])
  }

  /** The records whose append was answered with an offset. */
  ghost function Accepted(st: Store, ops: seq<Op>): seq<Record> {
    if ops == [] then []
    else
      var n := |ops| - 1;
      Accepted(st, ops[..n]) +
      match ops[n]
      case AppendOp(rec, diskOk) => if Append(Run(st, ops[..n]), rec, diskOk).1.Ok? then [rec] else []
      case RestartOp => []
  }

  ghost function Fresh(maxSize: int): Store {
    FreshHolds(maxSize);
    Open(map[], Missing, maxSize).value
  }

  /** Any run of appends and clean restarts adds exactly the accepted records, in order, behind those already
      there, split over segments by the rolling rule; no earlier record moves. */
  lemma {:induction false} RunExtends(st: Store, log: seq<seq<Stored>>, ops: seq<Op>) returns (log': seq<seq<Stored>>)
    requires Holds(st, log)
    ensures Holds(Run(st, ops), log')
    ensures Run(st, ops).maxSize == st.maxSize
    ensures Flatten(log') == Flatten(log) + Accepted(st, ops)
    ensures PlacedLog(log) <= PlacedLog(log')
  {
    hide Holds, Append, Restart, Flatten, AppendLog, Open, PlacedLog;
    if ops == [] {
      log' := log;
    } else {
      var n := |ops| - 1;
      var before := RunExtends(st, log, ops[..n]);
      HoldsBasics(Run(st, ops[..n]), before);
      match ops[n] {
        case AppendOp(rec, diskOk) =>
          AppendHolds(Run(st, ops[..n]), before, rec, diskOk);
          log' := AppendLog(Run(st, ops[..n]), before, rec, diskOk);
        case RestartOp =>
          RestartHolds(Run(st, ops[..n]), before);
          log' := before;
      }
    }
  }

  /** From an empty directory: the files hold exactly the accepted records. */
  lemma RunHolds(maxSize: int, ops: seq<Op>) returns (log: seq<seq<Stored>>)
    ensures var st := Run(Fresh(maxSize), ops);
            && Holds(st, log)
            && st.maxSize == maxSize
            && Flatten(log) == Accepted(Fresh(maxSize), ops)
  {
    hide Holds, Run, Accepted, Flatten, Open, PlacedLog;
    FreshHolds(maxSize);
    log := RunExtends(Fresh(maxSize), [[]], ops);
    var none: seq<seq<Stored>> := [];
    assert none + [[]] == [[]];
    EmptySegmentAddsNothing(none);
    FlattenNothing();
  }

  lemma FlattenNothing()
    ensures Flatten([]) == []
  {
  }

  /** `read` after any run: the last record appended under the id, or nothing. */
  lemma IndexRefinesMap(maxSize: int, ops: seq<Op>, id: bytes)
    ensures Read(Run(Fresh(maxSize), ops), id) == LastRecord(Accepted(Fresh(maxSize), ops), id)
  {
    hide Run, Accepted, Flatten, PlacedLog, ScanAll, PutAll, Read, LastRecord, Fresh;
    var log := RunHolds(maxSize, ops);
    var st := Run(Fresh(maxSize), ops);
    ScanHeld(st, log);
    RebuiltIndexReads(st, id);
  }

  /** Closing after any run and starting again: the index path and a full scan return the same messages exactly
      when no accepted id repeats; the scan returns all accepted records in order. */
  lemma PathsAgreeAfterRuns(maxSize: int, ops: seq<Op>)
    ensures var closed := Close(Run(Fresh(maxSize), ops));
            var accepted := Accepted(Fresh(maxSize), ops);
            var byIndex := Open(closed.files, closed.indexFile, maxSize);
            var byScan := Open(closed.files, Missing, maxSize);
            && byIndex.Ok? && byScan.Ok?
            && Recover(byScan.value).1 == Ok(accepted)
            && (Recover(byIndex.value).1 == Ok(accepted) <==> NoDup(RecordIds(accepted)))
  {
    hide Run, Accepted, Flatten, Holds, Fresh, Recover, Open;
    var log := RunHolds(maxSize, ops);
    RecoveryPathsAgree(Run(Fresh(maxSize), ops), log);
  }

  /** Segment bounds after any run. */
  lemma RollingBounds(maxSize: int, ops: seq<Op>) returns (log: seq<seq<Stored>>)
    ensures var st := Run(Fresh(maxSize), ops);
            && Flatten(log) == Accepted(Fresh(maxSize), ops)
            && 1 <= |st.segments| == |log| <= MAX_SEGMENTS
            && (forall i :: 0 <= i < |log| ==>
                  && st.segments[i] == Nth(i)
                  && Contents(st.files, st.segments[i]) == LogBytes(log[i])
                  && (i < |log| - 1 ==> |LogBytes(log[i])| >= maxSize)
                  && (log[i] != [] && maxSize > 0 ==> |LogBytes(log[i][..|log[i]| - 1])| < maxSize))
            && st.active == Some(st.segments[|log| - 1])
            && st.activeSize == |Contents(st.files, st.segments[|log| - 1])|
  {
    hide Run, Accepted, Flatten, Nth, LogBytes, Fresh, PlacedLog, PutAll;
    log := RunHolds(maxSize, ops);
    HoldsBasics(Run(Fresh(maxSize), ops), log);
  }

  // ---------- Crashes ----------

  /** A crash cuts each segment anywhere and leaves no usable index. The next process recovers exactly the
      records that lie wholly before the cuts, in order, indexes each at its own offset, and can read each. */
  lemma CutRecovery(st: Store, log: seq<seq<Stored>>, files: Files, cuts: seq<nat>, kept: seq<seq<Stored>>,
                    indexFile: IndexFile, id: bytes)
    requires Holds(st, log)
    requires files.Keys == st.files.Keys && CutFiles(files, log, cuts, kept)
    requires indexFile.Saved? ==> indexFile.entries == Empty()
    ensures var r := Open(files, indexFile, st.maxSize);
            && r.Ok?
            && Recover(r.value).1 == Ok(Flatten(kept))
            && Recover(r.value).0.index == PutAll(Empty(), PlacedLog(kept))
            && Read(Recover(r.value).0, id) == LastRecord(Flatten(kept), id)
  {
    hide ScanAll, PlacedLog, SegmentNames, Nth, LogBytes, NameSet, Holds, Flatten, PutAll, CutFiles, Read, LastRecord;
    HoldsBasics(st, log);
    OpenResumes(files, indexFile, st.maxSize, |log|);
    ScanCutFiles(files, log, cuts, kept);
    RecordsOfPlacedLog(kept);
    RebuiltIndexReads(Recover(Open(files, indexFile, st.maxSize).value).0, id);
  }

  /** What each file's length leaves of its segment. */
  function Kept(files: Files, log: seq<seq<Stored>>): (kept: seq<seq<Stored>>)
    ensures |kept| == |log|
  {
    seq(|log|, i requires 0 <= i < |log| => log[i][..CountWhole(log[i], |Contents(files, Nth(i))|)])
  }

  function Cuts(files: Files, n: nat): (cuts: seq<nat>)
    ensures |cuts| == n
  {
    seq(n, i requires 0 <= i < n => |Contents(files, Nth(i))|)
  }

  /** `files` is what a crash can leave of the store: every file a prefix of what was written to it. */
  ghost predicate CutDirectory(files: Files, st: Store) {
    files.Keys == st.files.Keys && forall f :: f in files ==> files[f] <= st.files[f]
  }

  /** However a crash cuts the files, each keeps the whole records its length leaves. */
  lemma EveryCutKeeps(st: Store, log: seq<seq<Stored>>, files: Files)
    requires Holds(st, log) && CutDirectory(files, st)
    ensures CutFiles(files, log, Cuts(files, |log|), Kept(files, log)) && files.Keys == st.files.Keys
  {
    hide Nth, LogBytes, Rolled, PlacedLog, PutAll, CountWhole, WholeBefore;
    forall i | 0 <= i < |log|
      ensures Nth(i) in files && files[Nth(i)] == LogBytes(log[i])[..|files[Nth(i)]|]
      ensures WholeBefore(log[i], |files[Nth(i)]|, CountWhole(log[i], |files[Nth(i)]|))
    {
      assert SegmentNames(|log|)[i] == Nth(i);
      assert files[Nth(i)] <= st.files[Nth(i)] == LogBytes(log[i]);
      EveryCutCounts(log[i], |files[Nth(i)]|);
    }
  }

  /** A crash after any run, cutting every file anywhere and leaving no usable index: the next process recovers
      exactly the accepted records whose bytes lie wholly before the cuts, in order, and can read each by its id. */
  lemma CrashRecovery(maxSize: int, ops: seq<Op>, files: Files, indexFile: IndexFile, id: bytes)
    returns (log: seq<seq<Stored>>)
    requires CutDirectory(files, Run(Fresh(maxSize), ops))
    requires indexFile.Saved? ==> indexFile.entries == Empty()
    ensures var st := Run(Fresh(maxSize), ops);
            && Flatten(log) == Accepted(Fresh(maxSize), ops)
            && |log| == |st.segments|
            && (forall i :: 0 <= i < |log| ==> Contents(st.files, Nth(i)) == LogBytes(log[i]))
    ensures var kept := Kept(files, log);
            var r := Open(files, indexFile, maxSize);
            && (forall i :: 0 <= i < |log| ==> WholeBefore(log[i], |Contents(files, Nth(i))|, |kept[i]|))
            && r.Ok?
            && Recover(r.value).1 == Ok(Flatten(kept))
            && Recover(r.value).0.index == PutAll(Empty(), PlacedLog(kept))
            && Read(Recover(r.value).0, id) == LastRecord(Flatten(kept), id)
  {
    hide Run, Accepted, Flatten, Nth, LogBytes, Fresh, PlacedLog, PutAll, Open, Recover, Read, LastRecord, Kept,
      CutDirectory, WholeBefore;
    log := RunHolds(maxSize, ops);
    var st := Run(Fresh(maxSize), ops);
    HoldsBasics(st, log);
    EveryCutKeeps(st, log, files);
    CutRecovery(st, log, files, Cuts(files, |log|), Kept(files, log), indexFile, id);
  }

  /** An index file saved when only the first `n` records existed hides every later one from the next recovery,
      whole though the segments are: recovery is complete exactly when nothing was appended after the index was
      saved and no id repeats. */
  lemma StaleIndexHides(st: Store, log: seq<seq<Stored>>, n: nat)
    requires Holds(st, log)
    requires 0 < n <= |PlacedLog(log)|
    ensures var saved := PutAll(Empty(), PlacedLog(log)[..n]);
            var r := Open(st.files, Saved(saved), st.maxSize);
            && r.Ok?
            && |Flatten(log)| == |PlacedLog(log)|
            && Recover(r.value).1.Ok?
            && (NoDup(Ids(PlacedLog(log)[..n])) ==> Recover(r.value).1 == Ok(Flatten(log)[..n]))
            && (Recover(r.value).1 == Ok(Flatten(log)) <==> n == |Flatten(log)| && NoDup(RecordIds(Flatten(log))))
  {
    hide ScanAll, PlacedLog, SegmentNames, ReadAt, Flatten, Holds, PutAll, Open, ReadEntries, NoDup;
    var all := PlacedLog(log);
    var ps := all[..n];
    HoldsOpens(st, log);
    ScanHeld(st, log);
    IndexPass(st.files, ps);
    assert Records(ps) == Flatten(log)[..n];
    if n == |all| {
      assert ps == all;
      assert Ids(all) == RecordIds(Flatten(log));
    }
  }

  ghost predicate Appends(ops: seq<Op>) {
    forall i :: 0 <= i < |ops| ==> ops[i].AppendOp?
  }

  lemma AppendKeepsIndexFile(st: Store, rec: Record, diskOk: bool)
    ensures Append(st, rec, diskOk).0.indexFile == st.indexFile
  {
  }

  lemma {:induction false} AppendsKeepIndexFile(st: Store, ops: seq<Op>)
    requires Appends(ops)
    ensures Run(st, ops).indexFile == st.indexFile
  {
    hide Append;
    if ops != [] {
      var n := |ops| - 1;
      AppendsKeepIndexFile(st, ops[..n]);
      AppendKeepsIndexFile(Run(st, ops[..n]), ops[n].rec, ops[n].diskOk);
    }
  }

  /** The crash that matters in practice: a clean restart, then appends, then a crash with every file whole. The
      index file dates from the restart, so unless it was empty recovery is complete exactly when no append was
      accepted since, and no id repeats. */
  lemma CrashAfterRestart(maxSize: int, before: seq<Op>, after: seq<Op>)
    requires Appends(after)
    ensures var early := Run(Fresh(maxSize), before);
            var st := Run(Close(early), after);
            var first := Accepted(Fresh(maxSize), before);
            var accepted := first + Accepted(Close(early), after);
            var r := Open(st.files, st.indexFile, maxSize);
            && Step(early, RestartOp) == Close(early)
            && r.Ok?
            && (Recover(r.value).1 == Ok(accepted) <==>
                  first == [] || (accepted == first && NoDup(RecordIds(accepted))))
  {
    hide Run, Accepted, Flatten, Holds, Fresh, Recover, Open, PlacedLog, PutAll, Restart;
    var early := Run(Fresh(maxSize), before);
    var log := RunHolds(maxSize, before);
    RestartHolds(early, log);
    CloseHolds(early, log);
    var log' := RunExtends(Close(early), log, after);
    var st := Run(Close(early), after);
    AppendsKeepIndexFile(Close(early), after);
    RecordsOfPlacedLog(log);
    var n := |PlacedLog(log)|;
    var first := Accepted(Fresh(maxSize), before);
    var accepted := first + Accepted(Close(early), after);
    if n == 0 {
      EmptyIndex([]);
      RecoversWithoutIndex(st, log');
    } else {
      assert PlacedLog(log')[..n] == PlacedLog(log);
      StaleIndexHides(st, log', n);
      assert |first| == n;
      assert |accepted| == n <==> accepted == first;
    }
  }

  /** So one append after a restart is enough: with all files whole the next process does not recover `b`. */
  lemma StaleIndexLosesOne(maxSize: int, a: Stored, b: Stored)
    ensures var early := Run(Fresh(maxSize), [AppendOp(a, true)]);
            var st := Run(Close(early), [AppendOp(b, true)]);
            var r := Open(st.files, st.indexFile, maxSize);
            && Step(early, RestartOp) == Close(early)
            && Accepted(Fresh(maxSize), [AppendOp(a, true)]) == [a]
            && Accepted(Close(early), [AppendOp(b, true)]) == [b]
            && r.Ok? && Recover(r.value).1 != Ok([a, b])
  {
    hide Run, Accepted, Holds, Fresh, Recover, Open, Close, Restart, Fits, Step;
    var before, after := [AppendOp(a, true)], [AppendOp(b, true)];
    FreshHolds(maxSize);
    FreshIs(maxSize);
    OneAccepted(Fresh(maxSize), [[]], a);
    var log := AppendLog(Fresh(maxSize), [[]], a, true);
    var early := Run(Fresh(maxSize), before);
    CloseHolds(early, log);
    OneAccepted(Close(early), log, b);
    CrashAfterRestart(maxSize, before, after);
    assert [a] + [b] == [a, b];
  }

  lemma FreshIs(maxSize: int)
    ensures Open(map[], Missing, maxSize) == Ok(Fresh(maxSize))
  {
    hide Open;
    FreshHolds(maxSize);
  }

  lemma OneAccepted(st: Store, log: seq<seq<Stored>>, r: Stored)
    requires log != [] && Holds(st, log) && |log| < MAX_SEGMENTS
    ensures var log' := AppendLog(st, log, r, true);
            && Accepted(st, [AppendOp(r, true)]) == [r]
            && Holds(Run(st, [AppendOp(r, true)]), log') && |log'| <= |log| + 1
  {
    hide Holds, Append, Fits, AppendLog, PlacedLog, Flatten, Nth;
    AppendHolds(st, log, r, true);
    AppendLogLength(st, log, r);
    FitsStored(r);
    var op := AppendOp(r, true);
    assert [op][..0] == [];
    assert Run(st, [op]) == Append(st, r, true).0;
  }

  lemma AppendLogLength(st: Store, log: seq<seq<Stored>>, r: Stored)
    requires log != []
    ensures |AppendLog(st, log, r, true)| <= |log| + 1
  {
    hide Fits;
  }

  lemma FitsStored(r: Stored)
    ensures Fits(r)
  {
  }

  lemma RecoversWithoutIndex(st: Store, log: seq<seq<Stored>>)
    requires Holds(st, log)
    ensures var r := Open(st.files, Saved(Empty()), st.maxSize);
            r.Ok? && Recover(r.value).1 == Ok(Flatten(log))
  {
    hide ScanAll, PlacedLog, SegmentNames, Holds, Flatten, PutAll, Open;
    HoldsOpens(st, log);
    ScanHeld(st, log);
  }
}
