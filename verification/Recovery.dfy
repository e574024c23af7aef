/** What scanning segment files finds: on arbitrary bytes, and on logs cut short by a crash. */
module Recovery {

  import opened Common
  import opened BigEndian
  import opened Codec
  import opened Dicts
  import opened StoreModel

  // ---------- Arbitrary bytes ----------

  /** Every record a scan accepts moves it on by at least 28 bytes and reads back from where it was found. */
  lemma {:induction false} ScanReads(name: string, data: bytes, offset: nat)
    requires offset <= |data|
    ensures forall p <- ScanSegment(name, data, offset) ::
              p.at.segment == name && ReadBytes(data, p.at.offset) == Found(p.rec)
    ensures 28 * |ScanSegment(name, data, offset)| <= |data| - offset
    decreases |data| - offset
  {
    hide Deserialize;
    if offset + 4 <= |data| {
      var raw := RawAt(data, offset);
      if Deserialize(raw).Ok? {
        DecodeMonotone(raw, []);
        ScanReads(name, data, offset + |raw|);
      }
    }
  }

  lemma {:induction false} ScanAllReads(files: Files, segments: seq<string>)
    ensures forall p <- ScanAll(files, segments) :: ReadAt(files, p.at) == Found(p.rec)
  {
    if segments != [] {
      var n := |segments| - 1;
      ScanAllReads(files, segments[..n]);
      if segments[n] in files {
        ScanReads(segments[n], files[segments[n]], 0);
      }
    }
  }

  /** The last element recorded under `id`. */
  function LastPlaced(ps: seq<Placed>, id: bytes): Option<Placed> {
    if ps == [] then None
    else
      var n := |ps| - 1;
      if ps[n].rec.id == id then Some(ps[n]) else LastPlaced(ps[..n], id)
  }

  function LastRecord(rs: seq<Record>, id: bytes): ReadResult {
    if rs == [] then NotFound
    else
      var n := |rs| - 1;
      if rs[n].id == id then Found(rs[n]) else LastRecord(rs[..n], id)
  }

  lemma {:induction false} LastRecordOfPlaced(ps: seq<Placed>, id: bytes)
    ensures match LastPlaced(ps, id)
            case None => LastRecord(Records(ps), id) == NotFound
            case Some(p) => p in ps && LastRecord(Records(ps), id) == Found(p.rec)
  {
    if ps != [] {
      var n := |ps| - 1;
      assert Records(ps)[..n] == Records(ps[..n]);
      LastRecordOfPlaced(ps[..n], id);
    }
  }

  lemma {:induction false} PutAllGet(d: Dict<bytes, Location>, ps: seq<Placed>, id: bytes)
    ensures PutAll(d, ps).Get(id) ==
            match LastPlaced(ps, id)
            case None => d.Get(id)
            case Some(p) => Some(p.at)
  {
    if ps != [] {
      PutAllGet(d, ps[..|ps| - 1], id);
    }
  }

  /** An index built from a scan answers every id with the last record the scan saw under it, on any bytes. */
  lemma RebuiltIndexReads(st: Store, id: bytes)
    requires st.index == PutAll(Empty(), ScanAll(st.files, st.segments))
    ensures Read(st, id) == LastRecord(Records(ScanAll(st.files, st.segments)), id)
  {
    var ps := ScanAll(st.files, st.segments);
    ScanAllReads(st.files, st.segments);
    PutAllGet(Empty(), ps, id);
    LastRecordOfPlaced(ps, id);
  }

  /** Recovery without a usable index, from whatever bytes the segments hold: it always succeeds, and afterwards
      `read` returns, for every id, the last recovered message with that id. */
  lemma RecoverArbitraryBytes(st: Store, id: bytes)
    requires LoadIndex(st) == Empty()
    ensures Recover(st).1.Ok?
    ensures Read(Recover(st).0, id) == LastRecord(Recover(st).1.value, id)
  {
    RebuiltIndexReads(Recover(st).0, id);
  }

  // ---------- Logs and cuts ----------

  function PlacedFrom(name: string, offset: nat, rs: seq<Stored>): (ps: seq<Placed>)
    ensures |ps| == |rs|
    decreases rs
  {
    if rs == [] then []
    else [Placed(rs[0], Location(name, offset))] + PlacedFrom(name, offset + Size(rs[0]), rs[1..])
  }

  /** Record `j` starts where the records before it end. */
  lemma {:induction false} PlacedFromAt(name: string, offset: nat, rs: seq<Stored>, j: nat)
    requires j < |rs|
    ensures PlacedFrom(name, offset, rs)[j] == Placed(rs[j], Location(name, offset + |LogBytes(rs[..j])|))
    decreases rs
  {
    if j > 0 {
      PlacedFromAt(name, offset + Size(rs[0]), rs[1..], j - 1);
      assert rs[..j][1..] == rs[1..][..j - 1];
    }
  }

  lemma {:induction false} PlacedFromAppend(name: string, offset: nat, rs: seq<Stored>, r: Stored)
    ensures PlacedFrom(name, offset, rs + [r]) ==
            PlacedFrom(name, offset, rs) + [Placed(r, Location(name, offset + |LogBytes(rs)|))]
    decreases rs
  {
    if rs != [] {
      assert (rs + [r])[1..] == rs[1..] + [r];
      PlacedFromAppend(name, offset + Size(rs[0]), rs[1..], r);
    }
  }

  /** `k` is how many of the records lie wholly before `cut`. */
  ghost predicate WholeBefore(rs: seq<Stored>, cut: nat, k: nat) {
    && k <= |rs|
    && |LogBytes(rs[..k])| <= cut <= |LogBytes(rs)|
    && (k < |rs| ==> cut < |LogBytes(rs[..k + 1])|)
  }

  lemma HeaderIsSize(r: Stored)
    ensures Decode(Frame(r)[..4]) == Size(r) - 4
  {
    hide Decode, Encode, Payload, Utf8;
    DecodeEncode(Size(r) - 4, 4);
    assert Frame(r)[..4] == Encode(Size(r) - 4, 4);
  }

  /** A torn record ends the scan. */
  lemma ScanTorn(name: string, pre: bytes, r: Stored, cut: nat)
    requires cut < Size(r)
    ensures ScanSegment(name, pre + Frame(r)[..cut], |pre|) == []
  {
    hide Deserialize, Decode, Frame, Fits;
    var data := pre + Frame(r)[..cut];
    if cut >= 4 {
      HeaderIsSize(r);
      assert data[|pre|..|pre| + 4] == Frame(r)[..4];
      assert RawAt(data, |pre|) == Frame(r)[..cut];
      FrameTorn(r, cut);
    }
  }

  /** A whole record is accepted and the scan goes on behind it. */
  lemma ScanWhole(name: string, pre: bytes, r: Stored, rest: bytes)
    ensures var data := pre + Frame(r) + rest;
            ScanSegment(name, data, |pre|) ==
            [Placed(r, Location(name, |pre|))] + ScanSegment(name, data, |pre| + Size(r))
  {
    hide Deserialize, Decode, Frame, Fits;
    var data := pre + Frame(r) + rest;
    HeaderIsSize(r);
    assert data[|pre|..|pre| + 4] == Frame(r)[..4];
    assert RawAt(data, |pre|) == Frame(r);
    FrameDecodes(r);
  }

  lemma FrameDecodes(r: Stored)
    ensures Deserialize(Frame(r)) == Ok(r)
  {
    hide Deserialize, Payload, Utf8;
    RoundTrip(r, []);
    assert Frame(r) + [] == Frame(r);
  }

  lemma FrameTorn(r: Stored, cut: nat)
    requires cut < Size(r)
    ensures Deserialize(Frame(r)[..cut]).Err?
  {
    hide Deserialize, Payload, Utf8;
    PartialNeverDecodes(r, cut);
  }

  /** How many of `rs` lie wholly before `cut`, counted from the front. */
  function CountWhole(rs: seq<Stored>, cut: nat): (k: nat)
    ensures k <= |rs|
  {
    if rs == [] || cut < Size(rs[0]) then 0 else 1 + CountWhole(rs[1..], cut - Size(rs[0]))
  }

  lemma {:induction false} CountWholeIsWholeBefore(rs: seq<Stored>, cut: nat, k: nat)
    requires WholeBefore(rs, cut, k)
    ensures k == CountWhole(rs, cut)
  {
    hide Frame, Fits;
    if rs != [] {
      LogBytesFirst(rs);
      if k > 0 {
        LogBytesFirst(rs[..k]);
        assert rs[..k][1..] == rs[1..][..k - 1];
      }
      if k < |rs| {
        LogBytesFirst(rs[..k + 1]);
        assert rs[..k + 1][1..] == rs[1..][..k];
      }
      if cut >= Size(rs[0]) {
        assert k > 0 by {
          assert rs[..1][1..] == [];
        }
        CountWholeIsWholeBefore(rs[1..], cut - Size(rs[0]), k - 1);
      }
    }
  }

  /** Every cut leaves some number of whole records. */
  lemma {:induction false} EveryCutCounts(rs: seq<Stored>, cut: nat)
    requires cut <= |LogBytes(rs)|
    ensures WholeBefore(rs, cut, CountWhole(rs, cut))
    decreases rs
  {
    hide Frame, Fits;
    var k := CountWhole(rs, cut);
    if rs != [] {
      LogBytesFirst(rs);
      if cut < Size(rs[0]) {
        LogBytesFirst(rs[..1]);
        assert rs[..1][1..] == rs[..0] == [];
      } else {
        EveryCutCounts(rs[1..], cut - Size(rs[0]));
        LogBytesFirst(rs[..k]);
        assert rs[..k][1..] == rs[1..][..k - 1];
        if k < |rs| {
          LogBytesFirst(rs[..k + 1]);
          assert rs[..k + 1][1..] == rs[1..][..k];
        }
      }
    }
  }

  lemma LogBytesFirst(rs: seq<Stored>)
    requires rs != []
    ensures |LogBytes(rs)| == Size(rs[0]) + |LogBytes(rs[1..])|
  {
  }

  /** Scanning what a crash left of `rs` behind any other bytes finds the whole records at their own offsets. */
  lemma {:induction false} ScanCut(name: string, pre: bytes, rs: seq<Stored>, cut: nat)
    requires cut <= |LogBytes(rs)|
    ensures ScanSegment(name, pre + LogBytes(rs)[..cut], |pre|) == PlacedFrom(name, |pre|, rs[..CountWhole(rs, cut)])
    decreases rs
  {
    hide Deserialize, Decode, Frame, Fits, RawAt;
    var data := pre + LogBytes(rs)[..cut];
    var k := CountWhole(rs, cut);
    if rs == [] {
      assert rs[..k] == [];
    } else {
      var f := Frame(rs[0]);
      if cut < |f| {
        assert data == pre + f[..cut];
        ScanTorn(name, pre, rs[0], cut);
      } else {
        var rest := LogBytes(rs[1..])[..cut - |f|];
        assert data == pre + f + rest;
        ScanWhole(name, pre, rs[0], rest);
        assert rs[..k][1..] == rs[1..][..k - 1];
        ScanCut(name, pre + f, rs[1..], cut - |f|);
      }
    }
  }

  // ---------- Whole logs ----------

  /** The name of segment `i`, counted from 0. */
  function Nth(i: nat): string {
    SegmentName(i + 1)
  }

  /** The records of every segment, in order, each where it lies. */
  function PlacedLog(log: seq<seq<Stored>>): seq<Placed> {
    if log == [] then []
    else
      var n := |log| - 1;
      PlacedLog(log[..n]) + PlacedFrom(Nth(n), 0, log[n])
  }

  function SegmentNames(n: nat): (names: seq<string>)
    ensures |names| == n
  {
    seq(n, i requires 0 <= i < n => Nth(i))
  }

  function Flatten(log: seq<seq<Stored>>): seq<Record> {
    if log == [] then []
    else Flatten(log[..|log| - 1]) + log[|log| - 1]
  }

  lemma {:induction false} RecordsOfPlacedFrom(name: string, offset: nat, rs: seq<Stored>)
    ensures Records(PlacedFrom(name, offset, rs)) == rs
    decreases rs
  {
    if rs != [] {
      RecordsOfPlacedFrom(name, offset + Size(rs[0]), rs[1..]);
      assert rs == [rs[0]] + rs[1..];
      assert Records(PlacedFrom(name, offset, rs)) ==
             [rs[0]] + Records(PlacedFrom(name, offset + Size(rs[0]), rs[1..]));
    }
  }

  lemma {:induction false} RecordsOfPlacedLog(log: seq<seq<Stored>>)
    ensures Records(PlacedLog(log)) == Flatten(log)
  {
    if log != [] {
      var n := |log| - 1;
      RecordsOfPlacedLog(log[..n]);
      RecordsOfPlacedFrom(Nth(n), 0, log[n]);
    }
  }

  /** File `i` holds the first `cuts[i]` bytes of segment `i`'s records, of which `kept[i]` survive whole. */
  ghost predicate CutFiles(files: Files, log: seq<seq<Stored>>, cuts: seq<nat>, kept: seq<seq<Stored>>) {
    && |cuts| == |log| == |kept|
    && (forall i :: 0 <= i < |log| ==>
          && WholeBefore(log[i], cuts[i], |kept[i]|)
          && kept[i] == log[i][..|kept[i]|]
          && Nth(i) in files
          && files[Nth(i)] == LogBytes(log[i])[..cuts[i]])
  }

  /** The scan of cut files finds exactly the whole records, segment after segment, at their own offsets. */
  lemma {:induction false} ScanCutFiles(files: Files, log: seq<seq<Stored>>, cuts: seq<nat>, kept: seq<seq<Stored>>)
    requires CutFiles(files, log, cuts, kept)
    ensures ScanAll(files, SegmentNames(|log|)) == PlacedLog(kept)
  {
    if log != [] {
      var n := |log| - 1;
      assert CutFiles(files, log[..n], cuts[..n], kept[..n]);
      ScanCutFiles(files, log[..n], cuts[..n], kept[..n]);
      assert SegmentNames(n + 1)[..n] == SegmentNames(n);
      var data := LogBytes(log[n])[..cuts[n]];
      ScanCut(Nth(n), [], log[n], cuts[n]);
      CountWholeIsWholeBefore(log[n], cuts[n], |kept[n]|);
      assert [] + data == data;
    }
  }

  ghost predicate WholeFiles(files: Files, log: seq<seq<Stored>>) {
    forall i :: 0 <= i < |log| ==>
      Nth(i) in files && files[Nth(i)] == LogBytes(log[i])
  }

  lemma ScanWholeFiles(files: Files, log: seq<seq<Stored>>)
    requires WholeFiles(files, log)
    ensures ScanAll(files, SegmentNames(|log|)) == PlacedLog(log)
  {
    var cuts := seq(|log|, i requires 0 <= i < |log| => |LogBytes(log[i])|);
    forall i | 0 <= i < |log|
      ensures WholeBefore(log[i], cuts[i], |log[i]|) && log[i] == log[i][..|log[i]|]
      ensures LogBytes(log[i])[..cuts[i]] == LogBytes(log[i])
    {
      assert log[i][..|log[i]|] == log[i];
    }
    ScanCutFiles(files, log, cuts, log);
  }
}
