/** The classes of `src/persistence.py` over a shared directory. Every method is proved to be the operation of
    `StoreModel` with the same name. */
module Persistence {

  import opened Common
  import opened BigEndian
  import opened Codec
  import opened Order
  import opened Dicts
  import opened StoreModel

  /** The data directory. */
  class Disk {
    var files: Files
    var indexFile: IndexFile

    constructor ()
      ensures files == map[] && indexFile == Missing
    {
      files, indexFile := map[], Missing;
    }
  }

  class SegmentManager {
    const disk: Disk
    const maxSize: int
    var active: Option<string>
    var activeSize: nat
    var segments: seq<string>

    ghost function Abs(): Store
      reads this, disk
    {
      Store(disk.files, disk.indexFile, segments, active, activeSize, Empty(), maxSize)
    }

    constructor (disk: Disk, maxSize: int)
      modifies disk
      ensures this.disk == disk && this.maxSize == maxSize
      ensures disk.indexFile == old(disk.indexFile)
      ensures Open(old(disk.files), old(disk.indexFile), maxSize) == Ok(Abs())
    {
      this.disk := disk;
      this.maxSize := maxSize;
      active, activeSize, segments := None, 0, [];
      new;
      ScanExistingSegments();
    }

    method ScanExistingSegments()
      requires active == None && activeSize == 0
      modifies this, disk
      ensures disk.indexFile == old(disk.indexFile)
      ensures Open(old(disk.files), old(disk.indexFile), maxSize) == Ok(Abs())
    {
      segments := SortSet(SegmentFiles(disk.files));
      SortedUnique(segments, Listing(SegmentFiles(disk.files)));
      if segments != [] {
        var last := segments[|segments| - 1];
        active := Some(last);
        activeSize := |Contents(disk.files, last)|;
      } else {
        var _ := RollSegment();
      }
    }

    method RollSegment() returns (r: Result<(), StoreError>)
      modifies this, disk
      ensures disk.indexFile == old(disk.indexFile)
      ensures match Roll(old(Abs()))
              case Ok(st) => r == Ok(()) && Abs() == st
              case Err(e) => r == Err(e) && Abs() == old(Abs())
    {
      if |segments| >= MAX_SEGMENTS {
        return Err(TooManySegments);
      }
      var name := SegmentName(|segments| + 1);
      disk.files := disk.files[name := Contents(disk.files, name)];
      active := Some(name);
      activeSize := 0;
      segments := segments + [name];
      r := Ok(());
    }

    method GetActiveSegment() returns (r: Result<string, StoreError>)
      modifies this, disk
      ensures disk.indexFile == old(disk.indexFile)
      ensures match GetActive(old(Abs()))
              case Ok(st) => Abs() == st && r == Ok(st.active.value)
              case Err(e) => Abs() == old(Abs()) && r == Err(e)
    {
      if active.None? || activeSize >= maxSize {
        var _ :- RollSegment();
      }
      r := Ok(active.value);
    }

    method AddBytes(n: nat)
      modifies `activeSize
      ensures activeSize == old(activeSize) + n
    {
      activeSize := activeSize + n;
    }
  }

  class IndexManager {
    const disk: Disk
    var index: Dict<bytes, Location>

    constructor (disk: Disk)
      ensures this.disk == disk && index == Empty()
    {
      this.disk := disk;
      index := Empty();
    }

    method Put(id: bytes, at: Location)
      modifies this
      ensures index == old(index).Put(id, at)
    {
      index := index.Put(id, at);
    }

    method Persist()
      modifies disk`indexFile
      ensures disk.indexFile == Saved(index)
    {
      disk.indexFile := Saved(index);
    }

    method Recover()
      modifies this
      ensures index == match disk.indexFile
                       case Missing => old(index)
                       case Corrupt => Empty()
                       case Saved(entries) => entries
    {
      match disk.indexFile {
        case Missing =>
        case Corrupt => index := Empty();
        case Saved(entries) => index := entries;
      }
    }
  }

  class PersistenceLayer {
    const disk: Disk
    const segmentMgr: SegmentManager
    const indexMgr: IndexManager

    ghost predicate Valid() {
      segmentMgr.disk == disk && indexMgr.disk == disk
    }

    ghost function Abs(): Store
      reads disk, segmentMgr, indexMgr
    {
      Store(disk.files, disk.indexFile, segmentMgr.segments, segmentMgr.active, segmentMgr.activeSize,
            indexMgr.index, segmentMgr.maxSize)
    }

    /** A new process on a directory. */
    constructor (disk: Disk, maxSize: int)
      modifies disk
      ensures Valid() && this.disk == disk && fresh(segmentMgr) && fresh(indexMgr)
      ensures Open(old(disk.files), old(disk.indexFile), maxSize) == Ok(Abs())
    {
      this.disk := disk;
      segmentMgr := new SegmentManager(disk, maxSize);
      indexMgr := new IndexManager(disk);
    }

    method Append(rec: Record, diskOk: bool) returns (r: Result<nat, StoreError>)
      requires Valid()
      modifies disk, segmentMgr, indexMgr
      ensures (Abs(), r) == StoreModel.Append(old(Abs()), rec, diskOk)
    {
      hide Serialize;
      var packed := Serialize(rec);
      if packed.Err? {
        return Err(BadRecord(packed.error));
      }
      var data := packed.value;
      ghost var before := segmentMgr.Abs();
      var segment :- segmentMgr.GetActiveSegment();
      assert GetActive(old(Abs())).value.(index := Empty()) == GetActive(before).value;
      if !diskOk {
        return Err(DiskLow);
      }
      var contents := Contents(disk.files, segment);
      var offset := |contents|;
      disk.files := disk.files[segment := contents + data];
      segmentMgr.AddBytes(|data|);
      indexMgr.Put(rec.id, Location(segment, offset));
      r := Ok(offset);
    }

    method ReadLocation(at: Location) returns (r: ReadResult)
      requires Valid()
      ensures r == ReadAt(disk.files, at)
    {
      hide Deserialize, Decode;
      if at.segment !in disk.files {
        return NotFound;
      }
      var data := disk.files[at.segment];
      if at.offset + 4 > |data| {
        return NotFound;
      }
      var total := Decode(data[at.offset..at.offset + 4]);
      var raw := data[at.offset..Min(at.offset + 4 + total, |data|)];
      match Deserialize(raw) {
        case Ok(rec) => r := Found(rec);
        case Err(StructError) => r := NotFound;
        case Err(UnicodeError) => r := Raised;
      }
    }

    method Read(id: bytes) returns (r: ReadResult)
      requires Valid()
      ensures r == StoreModel.Read(Abs(), id)
    {
      var at := indexMgr.index.Get(id);
      if at.None? {
        return NotFound;
      }
      r := ReadLocation(at.value);
    }

    method Recover() returns (r: Result<seq<Record>, StoreError>)
      requires Valid()
      modifies indexMgr
      ensures (Abs(), r) == StoreModel.Recover(old(Abs()))
    {
      indexMgr.Recover();
      if |indexMgr.index.keys| > 0 {
        r := RecoverFromIndex();
      } else {
        var messages := RebuildFromLog();
        r := Ok(messages);
      }
    }

    method RecoverFromIndex() returns (r: Result<seq<Record>, StoreError>)
      requires Valid()
      ensures r == ReadEntries(disk.files, indexMgr.index, |indexMgr.index.keys|)
    {
      hide ReadAt;
      var index := indexMgr.index;
      var messages: seq<Record> := [];
      var i := 0;
      while i < |index.keys|
        invariant 0 <= i <= |index.keys|
        invariant ReadEntries(disk.files, index, i) == Ok(messages)
      {
        var at := index.Get(index.keys[i]);
        i := i + 1;
        if at.Some? {
          var m := ReadLocation(at.value);
          match m {
            case Found(rec) => messages := messages + [rec];
            case NotFound =>
            case Raised =>
              EntriesRaise(disk.files, index, i, |index.keys|);
              return Err(BadRecord(UnicodeError));
          }
        }
      }
      r := Ok(messages);
    }

    method RebuildFromLog() returns (messages: seq<Record>)
      requires Valid()
      modifies indexMgr
      ensures messages == Records(ScanAll(disk.files, segmentMgr.segments))
      ensures indexMgr.index == PutAll(old(indexMgr.index), ScanAll(disk.files, segmentMgr.segments))
    {
      hide ScanSegment, PutAll, Records, ScanAll;
      ghost var index0 := indexMgr.index;
      var segments := segmentMgr.segments;
      messages := [];
      var i := 0;
      NoRecords();
      PutNothing(index0);
      NothingScanned(disk.files);
      while i < |segments|
        invariant 0 <= i <= |segments|
        invariant messages == Records(ScanAll(disk.files, segments[..i]))
        invariant indexMgr.index == PutAll(index0, ScanAll(disk.files, segments[..i]))
      {
        PutNothing(indexMgr.index);
        ScanOneMore(disk.files, segments, i, index0);
        if segments[i] in disk.files {
          var more := RebuildFromSegment(segments[i], disk.files[segments[i]]);
          messages := messages + more;
        }
        i := i + 1;
      }
      assert segments[..i] == segments;
    }

    method RebuildFromSegment(name: string, data: bytes) returns (messages: seq<Record>)
      modifies indexMgr
      ensures messages == Records(ScanSegment(name, data, 0))
      ensures indexMgr.index == PutAll(old(indexMgr.index), ScanSegment(name, data, 0))
    {
      hide Deserialize, Decode, PutAll, ScanSegment, Records;
      ghost var index0 := indexMgr.index;
      ghost var found: seq<Placed> := [];
      PutNothing(index0);
      NoRecords();
      messages := [];
      var offset := 0;
      while offset + 4 <= |data|
        invariant 0 <= offset <= |data|
        invariant found + ScanSegment(name, data, offset) == ScanSegment(name, data, 0)
        invariant messages == Records(found)
        invariant indexMgr.index == PutAll(index0, found)
        decreases |data| - offset
      {
        var total := Decode(data[offset..offset + 4]);
        var raw := data[offset..Min(offset + 4 + total, |data|)];
        var decoded := Deserialize(raw);
        assert raw == RawAt(data, offset);
        if decoded.Err? {
          ScanRefuses(name, data, offset);
          break;
        }
        var rec := decoded.value;
        ScanAccepts(index0, found, name, data, offset);
        found := found + [Placed(rec, Location(name, offset))];
        messages := messages + [rec];
        indexMgr.Put(rec.id, Location(name, offset));
        offset := offset + |raw|;
      }
      if |data| < offset + 4 {
        ScanEnd(name, data, offset);
      }
      assert found == ScanSegment(name, data, 0);
    }

    method Close()
      requires Valid()
      modifies disk`indexFile
      ensures Abs() == StoreModel.Close(old(Abs()))
    {
      indexMgr.Persist();
    }
  }

  lemma PutNothing(d: Dict<bytes, Location>)
    ensures PutAll(d, []) == d
  {
  }

  lemma NoRecords()
    ensures Records([]) == []
  {
  }

  lemma NothingScanned(files: Files)
    ensures ScanAll(files, []) == []
  {
  }

  lemma {:induction false} PutAllMore(d: Dict<bytes, Location>, a: seq<Placed>, b: seq<Placed>)
    ensures PutAll(d, a + b) == PutAll(PutAll(d, a), b)
  {
    if b == [] {
      assert a + b == a;
    } else {
      var n := |b| - 1;
      assert (a + b)[..|a + b| - 1] == a + b[..n];
      PutAllMore(d, a, b[..n]);
    }
  }

  lemma RecordsMore(a: seq<Placed>, b: seq<Placed>)
    ensures Records(a + b) == Records(a) + Records(b)
  {
  }

  /** One turn of the scan of the log: the next segment's records follow those before it. */
  lemma ScanOneMore(files: Files, segments: seq<string>, i: nat, d: Dict<bytes, Location>)
    requires i < |segments|
    ensures var before := ScanAll(files, segments[..i]);
            var more := ScanFile(files, segments[i]);
            && ScanAll(files, segments[..i + 1]) == before + more
            && PutAll(d, before + more) == PutAll(PutAll(d, before), more)
            && Records(before + more) == Records(before) + Records(more)
  {
    hide PutAll, Records, ScanFile;
    assert segments[..i + 1][..i] == segments[..i];
    var before := ScanAll(files, segments[..i]);
    var more := ScanFile(files, segments[i]);
    PutAllMore(d, before, more);
    RecordsMore(before, more);
  }

  /** One turn of the scan of a segment, at a record that decodes. */
  lemma ScanAccepts(d: Dict<bytes, Location>, found: seq<Placed>, name: string, data: bytes, offset: nat)
    requires offset + 4 <= |data| && Deserialize(RawAt(data, offset)).Ok?
    ensures var rec := Deserialize(RawAt(data, offset)).value;
            var p := Placed(rec, Location(name, offset));
            && PutAll(d, found + [p]) == PutAll(d, found).Put(rec.id, Location(name, offset))
            && Records(found + [p]) == Records(found) + [rec]
            && found + ScanSegment(name, data, offset) ==
               found + [p] + ScanSegment(name, data, offset + |RawAt(data, offset)|)
  {
    hide Deserialize, Decode;
    var p := Placed(Deserialize(RawAt(data, offset)).value, Location(name, offset));
    assert (found + [p])[..|found|] == found;
    RecordsMore(found, [p]);
    var rest := ScanSegment(name, data, offset + |RawAt(data, offset)|);
    assert found + ([p] + rest) == found + [p] + rest;
  }

  /** At one that does not. */
  lemma ScanRefuses(name: string, data: bytes, offset: nat)
    requires offset + 4 <= |data| && Deserialize(RawAt(data, offset)).Err?
    ensures ScanSegment(name, data, offset) == []
  {
  }

  lemma ScanEnd(name: string, data: bytes, offset: nat)
    requires offset <= |data| < offset + 4
    ensures ScanSegment(name, data, offset) == []
  {
  }

  /** Once an entry raises, so does the whole pass. */
  lemma {:induction false} EntriesRaise(files: Files, index: Dict<bytes, Location>, i: nat, n: nat)
    requires i <= n <= |index.keys| && ReadEntries(files, index, i).Err?
    ensures ReadEntries(files, index, n) == ReadEntries(files, index, i)
  {
    if i < n {
      EntriesRaise(files, index, i, n - 1);
    }
  }
}
