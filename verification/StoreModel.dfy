/** The durable store of `src/persistence.py` as a value: segment files, index file, and the state of the
    segment and index managers. Each function below is one operation of the source. */
module StoreModel {

  import opened Common
  import opened BigEndian
  import opened Codec
  import opened Order
  import opened Dicts

  const MAX_SEGMENTS: nat := 100

  datatype Location = Location(segment: string, offset: nat)

  /** `index.json`: absent, unreadable, or a saved index in dictionary order. */
  datatype IndexFile = Missing | Corrupt | Saved(entries: Dict<bytes, Location>)

  datatype StoreError = BadRecord(error: CodecError) | TooManySegments | DiskLow

  /** `read` and `read_at` return a message, return None, or let a UnicodeDecodeError escape. */
  datatype ReadResult = Found(rec: Record) | NotFound | Raised

  /** A record and where it starts. */
  datatype Placed = Placed(rec: Record, at: Location)

  type Files = map<string, bytes>

  datatype Store = Store(
    files: Files,
    indexFile: IndexFile,
    segments: seq<string>,
    active: Option<string>,
    activeSize: nat,
    index: Dict<bytes, Location>,
    maxSize: int)

  // ---------- Segments ----------

  function SegmentName(n: nat): string {
    "mq-" + Padded(n, 4) + ".log"
  }

  /** The glob pattern "mq-*.log". */
  predicate IsSegmentFile(name: string) {
    |name| >= 7 && name[..3] == "mq-" && name[|name| - 4..] == ".log"
  }

  function Contents(files: Files, name: string): bytes {
    if name in files then files[name] else []
  }

  function Roll(st: Store): (r: Result<Store, StoreError>)
    ensures r.Ok? ==> r.value.active.Some?
  {
    if |st.segments| >= MAX_SEGMENTS then Err(TooManySegments)
    else
      var name := SegmentName(|st.segments| + 1);
      Ok(st.(files := st.files[name := Contents(st.files, name)], active := Some(name), activeSize := 0,
             segments := st.segments + [name]))
  }

  function GetActive(st: Store): (r: Result<Store, StoreError>)
    ensures r.Ok? ==> r.value.active.Some?
  {
    if st.active.None? || st.activeSize >= st.maxSize then Roll(st) else Ok(st)
  }

  function SegmentFiles(files: Files): set<string> {
    set f | f in files && IsSegmentFile(f)
  }

  /** A new process on an existing directory. */
  ghost function Open(files: Files, indexFile: IndexFile, maxSize: int): Result<Store, StoreError> {
    var segments := Listing(SegmentFiles(files));
    var st := Store(files, indexFile, segments, None, 0, Empty(), maxSize);
    if segments == [] then Roll(st)
    else
      var last := segments[|segments| - 1];
      Ok(st.(active := Some(last), activeSize := |Contents(files, last)|))
  }

  // ---------- Writing ----------

  /** Append `data` to the active segment and index it under `id`. */
  function Write(st: Store, id: bytes, data: bytes): Store
    requires st.active.Some?
  {
    var name := st.active.value;
    var before := Contents(st.files, name);
    st.(files := st.files[name := before + data],
        activeSize := st.activeSize + |data|,
        index := st.index.Put(id, Location(name, |before|)))
  }

  function Append(st: Store, rec: Record, diskOk: bool): (Store, Result<nat, StoreError>) {
    match Serialize(rec)
    case Err(e) => (st, Err(BadRecord(e)))
    case Ok(data) =>
      match GetActive(st)
      case Err(e) => (st, Err(e))
      case Ok(ready) =>
        if !diskOk then (ready, Err(DiskLow))
        else (Write(ready, rec.id, data), Ok(|Contents(ready.files, ready.active.value)|))
  }

  function Close(st: Store): Store {
    st.(indexFile := Saved(st.index))
  }

  // ---------- Reading ----------

  /** `f.seek(offset); f.read(4 + total_len)`: what the file has of the bytes the header announces. */
  function RawAt(data: bytes, offset: nat): (raw: bytes)
    requires offset + 4 <= |data|
    ensures |raw| >= 4 && offset + |raw| <= |data|
  {
    data[offset..Min(offset + 4 + Decode(data[offset..offset + 4]), |data|)]
  }

  function ReadBytes(data: bytes, offset: nat): ReadResult {
    if offset + 4 > |data| then NotFound
    else
      match Deserialize(RawAt(data, offset))
      case Ok(rec) => Found(rec)
      case Err(StructError) => NotFound
      case Err(UnicodeError) => Raised
  }

  function ReadAt(files: Files, at: Location): ReadResult {
    if at.segment !in files then NotFound else ReadBytes(files[at.segment], at.offset)
  }

  function Read(st: Store, id: bytes): ReadResult {
    match st.index.Get(id)
    case None => NotFound
    case Some(at) => ReadAt(st.files, at)
  }

  // ---------- Recovery ----------

  /** Every record of one segment from `offset` on, up to the first one that does not decode. */
  function ScanSegment(name: string, data: bytes, offset: nat): seq<Placed>
    requires offset <= |data|
    decreases |data| - offset
  {
    if offset + 4 > |data| then []
    else
      var raw := RawAt(data, offset);
      match Deserialize(raw)
      case Err(_) => []
      case Ok(rec) => [Placed(rec, Location(name, offset))] + ScanSegment(name, data, offset + |raw|)
  }

  function ScanFile(files: Files, name: string): seq<Placed> {
    if name in files then ScanSegment(name, files[name], 0) else []
  }

  function ScanAll(files: Files, segments: seq<string>): seq<Placed> {
    if segments == [] then []
    else
      var n := |segments| - 1;
      ScanAll(files, segments[..n]) + ScanFile(files, segments[n])
  }

  function PutAll(d: Dict<bytes, Location>, ps: seq<Placed>): Dict<bytes, Location> {
    if ps == [] then d
    else
      var n := |ps| - 1;
      PutAll(d, ps[..n]).Put(ps[n].rec.id, ps[n].at)
  }

  function Records(ps: seq<Placed>): (rs: seq<Record>)
    ensures |rs| == |ps|
  {
    seq(|ps|, i requires 0 <= i < |ps| => ps[i].rec)
  }

  /** `index_mgr.recover`. */
  function LoadIndex(st: Store): Dict<bytes, Location> {
    match st.indexFile
    case Missing => st.index
    case Corrupt => Empty()
    case Saved(entries) => entries
  }

  /** The messages the index points at, in index order; unreadable ones are skipped. */
  function ReadEntries(files: Files, index: Dict<bytes, Location>, n: nat): Result<seq<Record>, StoreError>
    requires n <= |index.keys|
  {
    if n == 0 then Ok([])
    else
      var rs :- ReadEntries(files, index, n - 1);
      match index.Get(index.keys[n - 1])
      case None => Ok(rs)
      case Some(at) =>
        match ReadAt(files, at)
        case Found(rec) => Ok(rs + [rec])
        case NotFound => Ok(rs)
        case Raised => Err(BadRecord(UnicodeError))
  }

  function Recover(st: Store): (Store, Result<seq<Record>, StoreError>) {
    var loaded := st.(index := LoadIndex(st));
    if |loaded.index.keys| > 0 then
      (loaded, ReadEntries(st.files, loaded.index, |loaded.index.keys|))
    else
      var ps := ScanAll(st.files, st.segments);
      (loaded.(index := PutAll(loaded.index, ps)), Ok(Records(ps)))
  }
}
