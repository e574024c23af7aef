/** Appending behind the torn tail a crash left: the source does not cut it off. What the index knows stays readable;
    a scan can find records that nobody wrote. */
module TornTails {

  import opened Common
  import opened BigEndian
  import opened Codec
  import opened Dicts
  import opened Order
  import opened StoreModel
  import opened Recovery
  import opened StoreRuns

  // ---------- The index behind a tear ----------

  /** The index was built from `ps`, and each entry reads back. The files may hold anything else besides. */
  ghost predicate Indexed(st: Store, ps: seq<Placed>) {
    && st.index == PutAll(Empty(), ps)
    && forall p <- ps :: ReadAt(st.files, p.at) == Found(p.rec)
  }

  /** What reads as a record keeps doing so when the file grows. */
  lemma ReadsLater(data: bytes, more: bytes, offset: nat)
    requires ReadBytes(data, offset).Found?
    ensures ReadBytes(data + more, offset) == ReadBytes(data, offset)
  {
    hide Deserialize, Decode;
    var longer := data + more;
    assert longer[offset..offset + 4] == data[offset..offset + 4];
    var raw, raw' := RawAt(data, offset), RawAt(longer, offset);
    assert raw' == raw + raw'[|raw|..];
    DecodeMonotone(raw, raw'[|raw|..]);
  }

  /** The files after an append: one of them, perhaps new, has grown. */
  lemma AppendGrows(st: Store, rec: Record, diskOk: bool, at: Location)
    requires ReadAt(st.files, at).Found?
    ensures ReadAt(Append(st, rec, diskOk).0.files, at) == ReadAt(st.files, at)
  {
    hide Serialize, ReadBytes, SegmentName;
    var files := Append(st, rec, diskOk).0.files;
    var before, after := st.files[at.segment], files[at.segment];
    assert before <= after;
    assert after == before + after[|before|..];
    ReadsLater(before, after[|before|..], at.offset);
  }

  lemma AppendedReads(st: Store, rec: Record, diskOk: bool)
    requires Append(st, rec, diskOk).1.Ok?
    ensures var (st', r) := Append(st, rec, diskOk);
            && st'.active.Some?
            && st'.index == st.index.Put(rec.id, Location(st'.active.value, r.value))
            && ReadAt(st'.files, Location(st'.active.value, r.value)) == Found(rec)
  {
    hide Serialize, Deserialize, Decode, SegmentName, RawAt;
    SerializeOkIffFits(rec);
    hide Fits, Frame;
    var (st', r) := Append(st, rec, diskOk);
    var ready := GetActive(st).value;
    var before := Contents(ready.files, ready.active.value);
    FrameReads(before, rec);
  }

  lemma FrameReads(before: bytes, rec: Stored)
    ensures ReadBytes(before + Frame(rec), |before|) == Found(rec)
  {
    hide Deserialize, Decode, Frame, Fits;
    var data := before + Frame(rec);
    HeaderIsSize(rec);
    assert data[|before|..|before| + 4] == Frame(rec)[..4];
    assert RawAt(data, |before|) == Frame(rec);
    FrameDecodes(rec);
  }

  /** An append, in any store, keeps the index sound and adds what it accepts. */
  lemma AppendIndexed(st: Store, ps: seq<Placed>, rec: Record, diskOk: bool) returns (ps': seq<Placed>)
    requires Indexed(st, ps)
    ensures Indexed(Append(st, rec, diskOk).0, ps')
    ensures Records(ps') == Records(ps) + if Append(st, rec, diskOk).1.Ok? then [rec] else []
  {
    hide Append, ReadAt, PutAll;
    var (st', r) := Append(st, rec, diskOk);
    forall p | p in ps
      ensures ReadAt(st'.files, p.at) == Found(p.rec)
    {
      AppendGrows(st, rec, diskOk, p.at);
    }
    if r.Ok? {
      AppendedReads(st, rec, diskOk);
      var p := Placed(rec, Location(st'.active.value, r.value));
      PutAllSnoc(ps, p);
      ps' := ps + [p];
    } else {
      RefusedKeepsIndex(st, rec, diskOk);
      ps' := ps;
      assert Records(ps) + [] == Records(ps);
    }
  }

  lemma RefusedKeepsIndex(st: Store, rec: Record, diskOk: bool)
    requires Append(st, rec, diskOk).1.Err?
    ensures Append(st, rec, diskOk).0.index == st.index
  {
    hide Serialize, SegmentName;
  }

  /** Any run of appends, from any store with a sound index. */
  lemma {:induction false} RunIndexed(st: Store, ps: seq<Placed>, ops: seq<Op>) returns (ps': seq<Placed>)
    requires Indexed(st, ps) && Appends(ops)
    ensures Indexed(Run(st, ops), ps') && Records(ps') == Records(ps) + Accepted(st, ops)
    ensures Run(st, ops).maxSize == st.maxSize
  {
    hide Indexed, Append;
    if ops == [] {
      ps' := ps;
      assert Records(ps) + [] == Records(ps);
    } else {
      var n := |ops| - 1;
      var ps1 := RunIndexed(st, ps, ops[..n]);
      var mid := Run(st, ops[..n]);
      ps' := AppendIndexed(mid, ps1, ops[n].rec, ops[n].diskOk);
      AppendKeepsLimit(mid, ops[n].rec, ops[n].diskOk);
    }
  }

  lemma AppendKeepsLimit(st: Store, rec: Record, diskOk: bool)
    ensures Append(st, rec, diskOk).0.maxSize == st.maxSize
  {
    hide Serialize, SegmentName;
  }

  /** A sound index answers each id with the last record under it. */
  lemma IndexReads(st: Store, ps: seq<Placed>, id: bytes)
    requires Indexed(st, ps)
    ensures Read(st, id) == LastRecord(Records(ps), id)
  {
    hide ReadAt, PutAll, LastPlaced, LastRecord;
    PutAllGet(Empty(), ps, id);
    LastRecordOfPlaced(ps, id);
  }

  /** A new process loads it from the index file and recovers all of it when ids are distinct. */
  lemma IndexRecovers(st: Store, ps: seq<Placed>)
    requires Indexed(st, ps) && ps != []
    ensures var r := Open(st.files, Saved(st.index), st.maxSize);
            && r.Ok?
            && Recover(r.value).1.Ok?
            && (Recover(r.value).1 == Ok(Records(ps)) <==> NoDup(RecordIds(Records(ps))))
  {
    hide ReadAt, PutAll, ReadEntries, NoDup, Listing, SegmentFiles;
    var r := Open(st.files, Saved(st.index), st.maxSize);
    forall p | p in ps
      ensures r.Ok? && ReadAt(r.value.files, p.at) == Found(p.rec)
    {
      OpenKeepsReads(st.files, Saved(st.index), st.maxSize, p.at);
    }
    assert ps[0] in ps;
    IndexPass(r.value.files, ps);
    assert Ids(ps) == RecordIds(Records(ps));
  }

  lemma OpenKeepsReads(files: Files, indexFile: IndexFile, maxSize: int, at: Location)
    requires ReadAt(files, at).Found?
    ensures var r := Open(files, indexFile, maxSize);
            r.Ok? && r.value.indexFile == indexFile && ReadAt(r.value.files, at) == ReadAt(files, at)
  {
    hide ReadBytes, SegmentName, Listing, SegmentFiles;
  }

  lemma RecoveredIsIndexed(st: Store, ps: seq<Placed>)
    requires LoadIndex(st) == Empty() && ps == ScanAll(st.files, st.segments)
    ensures Indexed(Recover(st).0, ps) && Recover(st).1 == Ok(Records(ps))
  {
    hide ReadAt, PutAll, ScanAll;
    ScanAllReads(st.files, st.segments);
  }

  /** A crash after any run, cutting every file anywhere and leaving no usable index, then recovery and any appends
      behind the torn tails. `read` finds the last of the records that survived and the records appended since; after
      a clean close the next process recovers all of them through the index exactly when no id repeats. */
  lemma AppendsBehindTear(maxSize: int, ops: seq<Op>, files: Files, indexFile: IndexFile, more: seq<Op>, id: bytes)
    returns (log: seq<seq<Stored>>)
    requires CutDirectory(files, StoreRuns.Run(Fresh(maxSize), ops)) && Appends(more)
    requires indexFile.Saved? ==> indexFile.entries == Empty()
    ensures Flatten(log) == Accepted(Fresh(maxSize), ops)
    ensures Open(files, indexFile, maxSize).Ok?
    ensures var recovered := Recover(Open(files, indexFile, maxSize).value).0;
            var st := Run(recovered, more);
            var rs := Flatten(Kept(files, log)) + Accepted(recovered, more);
            var r := Open(st.files, Close(st).indexFile, maxSize);
            && Read(st, id) == LastRecord(rs, id)
            && (rs != [] ==>
                  r.Ok? && Recover(r.value).1.Ok? && (Recover(r.value).1 == Ok(rs) <==> NoDup(RecordIds(rs))))
  {
    hide Run, Accepted, Flatten, Fresh, PutAll, Open, Recover, Read, LastRecord, Kept, CutDirectory, Indexed, ScanAll,
      PlacedLog, NoDup, WholeBefore, Nth, LogBytes;
    log := CrashRecovery(maxSize, ops, files, indexFile, id);
    var reopened := Open(files, indexFile, maxSize).value;
    OpenedBare(files, indexFile, maxSize);
    var ps := ScanAll(reopened.files, reopened.segments);
    RecoveredIsIndexed(reopened, ps);
    var recovered := Recover(reopened).0;
    var ps' := RunIndexed(recovered, ps, more);
    var st := Run(recovered, more);
    RecoverKeepsLimit(reopened);
    IndexReads(st, ps', id);
    if ps' != [] {
      IndexRecovers(st, ps');
    }
  }

  lemma OpenedBare(files: Files, indexFile: IndexFile, maxSize: int)
    requires Open(files, indexFile, maxSize).Ok? && (indexFile.Saved? ==> indexFile.entries == Empty())
    ensures var st := Open(files, indexFile, maxSize).value; LoadIndex(st) == Empty() && st.maxSize == maxSize
  {
    hide Listing, SegmentFiles, SegmentName;
  }

  lemma RecoverKeepsLimit(st: Store)
    ensures Recover(st).0.maxSize == st.maxSize
  {
  }

  // ---------- A scan behind a tear ----------

  /** A record with empty id and target. */
  function Bare(body: bytes): Record {
    Record([], [], body, 0, 0, 0)
  }

  /** The first twelve bytes of such a record, `n` bytes of body announced. */
  function Head(n: nat): (s: bytes)
    ensures |s| == 12
  {
    Encode(24 + n, 4) + Encode(0, 2) + Encode(0, 2) + Encode(n, 4)
  }

  function Zeros(): (s: bytes)
    ensures |s| == 16
  {
    EncodeSigned(0, 8) + EncodeSigned(0, 4) + EncodeSigned(0, 4)
  }

  lemma SmallNumbers(n: nat)
    requires n <= 36
    ensures n < Span(2) && n < Span(4) && FitsSigned(0, 8) && FitsSigned(0, 4)
  {
    assert Span(1) == 256 && Span(2) == 65536 && Span(3) == 16777216 && Span(4) == 4294967296;
  }

  lemma BareFits(body: bytes)
    requires Utf8(body) && |body| <= 12
    ensures Fits(Bare(body))
  {
    SmallNumbers(|body| + 24);
    assert Utf8([]);
  }

  lemma BareFrame(body: bytes)
    requires Fits(Bare(body))
    ensures Frame(Bare(body)) == Head(|body|) + body + Zeros()
  {
    hide Encode, EncodeSigned, Utf8, Fits, FieldsFit;
    var r := Bare(body);
    FitsMeans(r);
    assert Payload(r) == Encode(0, 2) + Encode(0, 2) + Encode(|body|, 4) + body + Zeros();
    FrameIs(r);
  }

  lemma FitsMeans(r: Record)
    requires Fits(r)
    ensures FieldsFit(r)
  {
  }

  lemma FrameIs(r: Stored)
    ensures FieldsFit(r) && Frame(r) == Encode(Size(r) - 4, 4) + Payload(r)
  {
    hide Encode, Payload, Utf8;
  }

  lemma {:induction false} SmallBytes(n: nat, w: nat)
    requires n < 128
    ensures forall i :: 0 <= i < w ==> Encode(n, w)[i] < 128
  {
    if w > 0 {
      SmallBytes(n / 256, w - 1);
    }
  }

  lemma {:induction false} AsciiFrom(s: bytes, i: nat)
    requires i <= |s| && forall k :: 0 <= k < |s| ==> s[k] < 128
    ensures Utf8From(s, i)
    decreases |s| - i
  {
    if i < |s| {
      AsciiFrom(s, i + 1);
    }
  }

  lemma HeadIsText(n: nat)
    requires n <= 12
    ensures Utf8(Head(n))
  {
    hide Encode;
    SmallBytes(24 + n, 4);
    SmallBytes(0, 2);
    SmallBytes(n, 4);
    AsciiFrom(Head(n), 0);
  }

  /** A record of twelve bytes of body, torn behind its twelve-byte head, and the record appended behind it: together
      they are byte for byte a third record, whose body is the head of the second. */
  lemma TearMakesPhantom(body: bytes)
    requires Utf8(body) && |body| == 12
    ensures Fits(Bare(body)) && Fits(Bare([])) && Fits(Bare(Head(0)))
    ensures Frame(Bare(body))[..12] + Frame(Bare([])) == Frame(Bare(Head(0)))
  {
    hide Encode, EncodeSigned, Utf8, Fits, Frame;
    BareFits(body);
    HeadIsText(0);
    BareFits(Head(0));
    NoText();
    BareFits([]);
    BareFrame(body);
    BareFrame([]);
    BareFrame(Head(0));
    assert Frame(Bare(body))[..12] == Head(12);
  }

  lemma NoText()
    ensures Utf8([])
  {
  }

  /** So a scan behind that tear returns a record that nobody wrote, loses the one written there, and goes on: a later
      record is found again. */
  lemma ScanFindsPhantom(name: string, body: bytes, later: Stored)
    requires Utf8(body) && |body| == 12
    ensures Fits(Bare(body)) && Fits(Bare([])) && Fits(Bare(Head(0)))
    ensures var data := Frame(Bare(body))[..12] + Frame(Bare([])) + Frame(later);
            ScanSegment(name, data, 0) ==
            [Placed(Bare(Head(0)), Location(name, 0)), Placed(later, Location(name, 40))]
  {
    hide ScanSegment, Frame, Fits, Utf8, Encode;
    TearMakesPhantom(body);
    var phantom: Stored := Bare(Head(0));
    var data := Frame(phantom) + Frame(later);
    assert [] + Frame(phantom) + Frame(later) == data;
    ScanWhole(name, [], phantom, Frame(later));
    assert Frame(phantom) + Frame(later) + [] == data;
    ScanWhole(name, Frame(phantom), later, []);
    ScanNothing(name, data);
  }

  lemma ScanNothing(name: string, data: bytes)
    ensures ScanSegment(name, data, |data|) == []
  {
  }

  /** In a run: a record is written and torn by a crash, recovery finds nothing, two records are appended, and a second
      crash leaves the files whole but no index. What the next process recovers is not what was appended. */
  lemma PhantomIsRecovered(maxSize: int, body: bytes, later: Stored)
    requires Utf8(body) && |body| == 12 && maxSize > 40
    ensures Fits(Bare(body)) && Fits(Bare([])) && Fits(Bare(Head(0)))
    ensures var files: Files := map[Nth(0) := Frame(Bare(body))[..12]];
            && CutDirectory(files, StoreRuns.Run(Fresh(maxSize), [AppendOp(Bare(body), true)]))
            && Open(files, Missing, maxSize).Ok?
            && var recovered := Recover(Open(files, Missing, maxSize).value).0;
               var more := [AppendOp(Bare([]), true), AppendOp(later, true)];
               var st := StoreRuns.Run(recovered, more);
               && Accepted(recovered, more) == [Bare([]), later]
               && Open(st.files, Missing, maxSize).Ok?
               && Recover(Open(st.files, Missing, maxSize).value).1 == Ok([Bare(Head(0)), later])
  {
    hide Frame, Fits, Utf8, Nth, Append, StoreRuns.Run, Fresh, Open, Recover, Accepted, Bare, Head, OneFile,
      ScanSegment, CutDirectory, Records;
    TearMakesPhantom(body);
    BareSizes(body);
    TornStore(maxSize, Bare(body), 12);
    var cut := Frame(Bare(body))[..12];
    TwoAppends(OneFile(cut, maxSize), cut, Bare([]), later, maxSize);
    ScanFindsPhantom(Nth(0), body, later);
    TwoRecords(Placed(Bare(Head(0)), Location(Nth(0), 0)), Placed(later, Location(Nth(0), 40)));
    OneFileScans(cut + Frame(Bare([])) + Frame(later), maxSize);
  }

  lemma BareSizes(body: bytes)
    requires |body| == 12
    ensures Size(Bare(body)) == 40 && Size(Bare([])) == 28
  {
  }

  lemma TwoRecords(p: Placed, q: Placed)
    ensures Records([p, q]) == [p.rec, q.rec]
  {
  }

  /** A store of one segment with an empty index. */
  function OneFile(data: bytes, maxSize: int): Store {
    Store(map[Nth(0) := data], Missing, [Nth(0)], Some(Nth(0)), |data|, Empty(), maxSize)
  }

  lemma OneFileOpens(data: bytes, maxSize: int)
    ensures Open(map[Nth(0) := data], Missing, maxSize) == Ok(OneFile(data, maxSize))
  {
    hide Nth;
    var files: Files := map[Nth(0) := data];
    assert SegmentNames(1) == [Nth(0)];
    assert NameSet(1) == {Nth(0)};
    OpenResumes(files, Missing, maxSize, 1);
  }

  lemma OneFileScans(data: bytes, maxSize: int)
    ensures Open(map[Nth(0) := data], Missing, maxSize) == Ok(OneFile(data, maxSize))
    ensures Recover(OneFile(data, maxSize)).1 == Ok(Records(ScanSegment(Nth(0), data, 0)))
    ensures ScanSegment(Nth(0), data, 0) == [] ==> Recover(OneFile(data, maxSize)).0 == OneFile(data, maxSize)
  {
    hide Nth, ScanSegment, Open;
    OneFileOpens(data, maxSize);
    var st := OneFile(data, maxSize);
    assert st.segments[..0] == [];
    assert ScanAll(st.files, []) == [];
    var ps := ScanAll(st.files, st.segments);
    assert ps == ScanSegment(Nth(0), data, 0);
    assert ps == [] ==> PutAll(Empty(), ps) == Empty();
  }

  /** The torn store after recovery. */
  lemma TornStore(maxSize: int, r: Stored, cut: nat)
    requires maxSize > 0 && cut < Size(r)
    ensures var files: Files := map[Nth(0) := Frame(r)[..cut]];
            && CutDirectory(files, StoreRuns.Run(Fresh(maxSize), [AppendOp(r, true)]))
            && Open(files, Missing, maxSize).Ok?
            && Recover(Open(files, Missing, maxSize).value).0 == OneFile(Frame(r)[..cut], maxSize)
  {
    hide Frame, Fits, Nth, Open, Recover, ScanSegment;
    FirstAppend(maxSize, r);
    OneFileScans(Frame(r)[..cut], maxSize);
    ScanTorn(Nth(0), [], r, cut);
    assert [] + Frame(r)[..cut] == Frame(r)[..cut];
  }

  lemma FirstAppend(maxSize: int, r: Stored)
    requires maxSize > 0
    ensures var st := StoreRuns.Run(Fresh(maxSize), [AppendOp(r, true)]);
            st.files == map[Nth(0) := Frame(r)]
  {
    hide Frame, Fits, Append, Open, Nth;
    FreshIsOneFile(maxSize);
    var op := AppendOp(r, true);
    assert [op][..0] == [];
    AppendInPlace(OneFile([], maxSize).(indexFile := Missing), [], r);
    assert [] + Frame(r) == Frame(r);
  }

  lemma FreshIsOneFile(maxSize: int)
    ensures Fresh(maxSize) == OneFile([], maxSize)
  {
    hide SegmentName;
    ListingIsCreationOrder(map[], 0);
    assert SegmentNames(0) == [];
  }

  /** Appending to the one segment while it is below the limit. */
  lemma AppendInPlace(st: Store, data: bytes, r: Stored)
    requires st.files == map[Nth(0) := data] && st.active == Some(Nth(0)) && st.activeSize == |data| < st.maxSize
    ensures var (st', a) := Append(st, r, true);
            && a == Ok(|data|)
            && st'.files == map[Nth(0) := data + Frame(r)] && st'.active == st.active && st'.maxSize == st.maxSize
            && st'.activeSize == |data| + Size(r)
  {
    hide Nth, Serialize;
    SerializeOkIffFits(r);
    hide Frame, Fits;
  }

  lemma TwoAppends(st: Store, data: bytes, a: Stored, b: Stored, maxSize: int)
    requires st == OneFile(data, maxSize) && |data| < maxSize && |data| + Size(a) < maxSize
    ensures var more := [AppendOp(a, true), AppendOp(b, true)];
            && Accepted(st, more) == [a, b]
            && StoreRuns.Run(st, more).files == map[Nth(0) := data + Frame(a) + Frame(b)]
  {
    hide Frame, Fits, Nth, Append;
    var more := [AppendOp(a, true), AppendOp(b, true)];
    assert more[..1] == [AppendOp(a, true)] && more[..1][..0] == [];
    AppendInPlace(st, data, a);
    var st1 := Append(st, a, true).0;
    assert StoreRuns.Run(st, more[..0]) == st && Accepted(st, more[..0]) == [];
    assert StoreRuns.Run(st, more[..1]) == st1 && Accepted(st, more[..1]) == [a];
    AppendInPlace(st1, data + Frame(a), b);
    assert more[1] == AppendOp(b, true);
  }
}
