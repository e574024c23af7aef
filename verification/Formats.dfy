/** The formats byte by byte and digit by digit: integers, records, segment names, message ids; and the answers of the
    store in every case. */
module Formats {

  import opened Common
  import opened BigEndian
  import opened Codec
  import opened Order
  import opened Dicts
  import opened MessageIds
  import opened StoreModel
  import opened Recovery
  import opened StoreRuns

  // ---------- Integers ----------

  /** Two bytes, the more significant one first. */
  lemma TwoBytes(n: nat)
    requires n < 65536
    ensures Encode(n, 2) == [n / 256, n % 256]
  {
    OneByte(n / 256);
    assert Encode(n, 2) == Encode(n / 256, 1) + [n % 256];
  }

  lemma OneByte(n: nat)
    requires n < 256
    ensures Encode(n, 1) == [n]
  {
    assert Encode(n, 1) == Encode(n / 256, 0) + [n % 256];
  }

  /** Four. */
  lemma FourBytes(n: nat)
    requires n < 4294967296
    ensures Encode(n, 4) == [n / 16777216, n / 65536 % 256, n / 256 % 256, n % 256]
  {
    TwoBytes(n / 65536);
    assert Encode(n, 3) == Encode(n / 256, 2) + [n % 256];
    assert Encode(n, 4) == Encode(n / 256, 3) + [n % 256];
    assert Encode(n / 256, 3) == Encode(n / 256 / 256, 2) + [n / 256 % 256];
    assert n / 256 / 256 == n / 65536 && n / 65536 / 256 == n / 16777216;
  }

  /** Eight: the upper four, then the lower four. */
  lemma EightBytes(n: nat)
    ensures Encode(n, 8) == Encode(n / 4294967296, 4) + Encode(n % 4294967296, 4)
  {
    hide Encode;
    var q, low := n / 4294967296, n % 4294967296;
    Peel(n, 16777216 * q, low);
    Peel(n / 256, 65536 * q, low / 256);
    Peel(n / 256 / 256, 256 * q, low / 256 / 256);
    Peel(n / 256 / 256 / 256, q, low / 256 / 256 / 256);
    assert low / 256 / 256 / 256 / 256 == 0;
    FourLast(n, 4);
    FourLast(low, 0);
    NoBytes(0);
  }

  lemma Peel(n: nat, x: nat, low: nat)
    requires n == 256 * x + low
    ensures n / 256 == x + low / 256 && n % 256 == low % 256
  {
  }

  lemma NoBytes(n: nat)
    ensures Encode(n, 0) == []
  {
  }

  lemma FourLast(n: nat, v: nat)
    ensures Encode(n, v + 4) == Encode(n / 256 / 256 / 256 / 256, v) +
                                [n / 256 / 256 / 256 % 256, n / 256 / 256 % 256, n / 256 % 256, n % 256]
  {
    assert Encode(n, v + 4) == Encode(n / 256, v + 3) + [n % 256];
    assert Encode(n / 256, v + 3) == Encode(n / 256 / 256, v + 2) + [n / 256 % 256];
    assert Encode(n / 256 / 256, v + 2) == Encode(n / 256 / 256 / 256, v + 1) + [n / 256 / 256 % 256];
    assert Encode(n / 256 / 256 / 256, v + 1) ==
           Encode(n / 256 / 256 / 256 / 256, v) + [n / 256 / 256 / 256 % 256];
  }

  lemma Spans()
    ensures Span(1) == 256 && Span(2) == 65536 && Span(4) == 4294967296 && Span(8) == 18446744073709551616
  {
    assert Span(3) == 16777216;
    assert Span(5) == 1099511627776;
    assert Span(6) == 281474976710656;
    assert Span(7) == 72057594037927936;
  }

  /** Signed fields are two's complement. */
  lemma TwosComplement(x: int)
    ensures FitsSigned(x, 4) <==> -2147483648 <= x < 2147483648
    ensures FitsSigned(x, 8) <==> -9223372036854775808 <= x < 9223372036854775808
    ensures FitsSigned(x, 4) ==> EncodeSigned(x, 4) == Encode(if x < 0 then x + 4294967296 else x, 4)
    ensures FitsSigned(x, 8) ==> EncodeSigned(x, 8) == Encode(if x < 0 then x + 18446744073709551616 else x, 8)
  {
    Spans();
    hide Span, Encode;
  }

  // ---------- Records ----------

  /** Which records can be written at all. */
  lemma FitsExact(r: Record)
    ensures Fits(r) <==>
            && Utf8(r.id) && Utf8(r.target) && Utf8(r.body)
            && |r.id| < 65536 && |r.target| < 65536
            && -9223372036854775808 <= r.timestamp < 9223372036854775808
            && -2147483648 <= r.ttl < 2147483648 && -2147483648 <= r.ackTimeout < 2147483648
            && 24 + |r.id| + |r.target| + |r.body| < 4294967296
  {
    Spans();
    TwosComplement(r.timestamp);
    TwosComplement(r.ttl);
    TwosComplement(r.ackTimeout);
    hide Span, FitsSigned, Utf8;
  }

  /** The layout of a record: total length, then id, target and body each behind its length, then the time stamp, the
      TTL and the ACK timeout. What cannot be written is refused, text without an encoding first. */
  lemma SerializeExact(r: Record)
    ensures Serialize(r) ==
            if !Utf8(r.id) || !Utf8(r.target) || !Utf8(r.body) then Err(UnicodeError)
            else if !Fits(r) then Err(StructError)
            else
              Ok(Encode(24 + |r.id| + |r.target| + |r.body|, 4)
                 + Encode(|r.id|, 2) + r.id
                 + Encode(|r.target|, 2) + r.target
                 + Encode(|r.body|, 4) + r.body
                 + Encode(if r.timestamp < 0 then r.timestamp + 18446744073709551616 else r.timestamp, 8)
                 + Encode(if r.ttl < 0 then r.ttl + 4294967296 else r.ttl, 4)
                 + Encode(if r.ackTimeout < 0 then r.ackTimeout + 4294967296 else r.ackTimeout, 4))
  {
    hide Span, Utf8, Encode, EncodeSigned, FitsSigned, Fits;
    if Fits(r) {
      FitsExact(r);
      FieldsAre(r);
      TwosComplement(r.timestamp);
      TwosComplement(r.ttl);
      TwosComplement(r.ackTimeout);
    } else {
      Unfit(r);
    }
  }

  lemma FieldsAre(r: Record)
    requires Fits(r)
    ensures Serialize(r) ==
            Ok(Encode(24 + |r.id| + |r.target| + |r.body|, 4)
               + Encode(|r.id|, 2) + r.id
               + Encode(|r.target|, 2) + r.target
               + Encode(|r.body|, 4) + r.body
               + EncodeSigned(r.timestamp, 8) + EncodeSigned(r.ttl, 4) + EncodeSigned(r.ackTimeout, 4))
  {
    hide Span, Utf8, Encode, EncodeSigned, FitsSigned;
    assert Payload(r) ==
           Encode(|r.id|, 2) + r.id + Encode(|r.target|, 2) + r.target + Encode(|r.body|, 4) + r.body
           + EncodeSigned(r.timestamp, 8) + EncodeSigned(r.ttl, 4) + EncodeSigned(r.ackTimeout, 4);
    hide Payload;
    Written(r);
    Regroup(Encode(24 + |r.id| + |r.target| + |r.body|, 4), Encode(|r.id|, 2), r.id, Encode(|r.target|, 2), r.target,
            Encode(|r.body|, 4), r.body, EncodeSigned(r.timestamp, 8), EncodeSigned(r.ttl, 4),
            EncodeSigned(r.ackTimeout, 4));
  }

  lemma Regroup(a: bytes, b: bytes, c: bytes, d: bytes, e: bytes, f: bytes, g: bytes, h: bytes, i: bytes, j: bytes)
    ensures a + (b + c + d + e + f + g + h + i + j) == a + b + c + d + e + f + g + h + i + j
  {
  }

  lemma Written(r: Record)
    requires Fits(r)
    ensures FieldsFit(r) && Serialize(r) == Ok(Encode(24 + |r.id| + |r.target| + |r.body|, 4) + Payload(r))
  {
    hide Utf8, Payload, Encode, FitsSigned;
  }

  lemma Unfit(r: Record)
    requires !Fits(r)
    ensures Serialize(r) ==
            if !Utf8(r.id) || !Utf8(r.target) || !Utf8(r.body) then Err(UnicodeError) else Err(StructError)
  {
    hide Utf8, Payload;
  }

  // ---------- Why a record does not decode ----------

  /** A length of `w` bytes at `p` and all the text it announces. */
  predicate HasText(d: bytes, p: nat, w: nat) {
    p + w <= |d| && p + w + Decode(d[p..p + w]) <= |d|
  }

  function TextOf(d: bytes, p: nat, w: nat): bytes
    requires HasText(d, p, w)
  {
    d[p + w..p + w + Decode(d[p..p + w])]
  }

  /** Undecodable text is what `deserialize` trips over exactly when the fields before it are complete and decodable
      and it is complete itself; any other failure is a structure error. */
  lemma DeserializeFails(d: bytes)
    requires Deserialize(d).Err?
    ensures Deserialize(d) == Err(UnicodeError) <==>
            && |d| >= 4 && HasText(d, 4, 2)
            && var id := TextOf(d, 4, 2);
               !Utf8(id) ||
               (&& HasText(d, 6 + |id|, 2)
                && var target := TextOf(d, 6 + |id|, 2);
                   !Utf8(target) ||
                   (HasText(d, 8 + |id| + |target|, 4) && !Utf8(TextOf(d, 8 + |id| + |target|, 4))))
  {
    hide Utf8, Decode, DecodeSigned;
  }

  /** `read_at`: a missing file, fewer than four bytes, or bytes that do not parse give None; undecodable text
      escapes. */
  lemma ReadExact(files: Files, at: Location)
    ensures ReadAt(files, at) ==
            if at.segment !in files || at.offset + 4 > |files[at.segment]| then NotFound
            else
              var data := files[at.segment];
              var end := at.offset + 4 + Decode(data[at.offset..at.offset + 4]);
              match Deserialize(data[at.offset..if end < |data| then end else |data|])
              case Ok(rec) => Found(rec)
              case Err(StructError) => NotFound
              case Err(UnicodeError) => Raised
  {
    hide Decode, Deserialize;
  }

  // ---------- Names ----------

  const DIGITS := "0123456789"

  function DigitAt(d: nat): char
    requires d < 10
  {
    DIGITS[d]
  }

  lemma DigitIs(d: nat)
    requires d < 10
    ensures Digit(d) == DigitAt(d)
  {
  }

  /** What a string of digits says. */
  function Value(s: string): nat {
    if s == "" then 0 else 10 * Value(s[..|s| - 1]) + DigitValue(s[|s| - 1])
  }

  function DigitValue(c: char): nat {
    if '0' <= c <= '9' then c as int - '0' as int else 0
  }

  ghost predicate AllDigits(s: string) {
    forall i :: 0 <= i < |s| ==> s[i] in DIGITS
  }

  lemma {:induction false} DigitsRead(n: nat, w: nat)
    requires n < Pow10(w)
    ensures Value(Digits(n, w)) == n && AllDigits(Digits(n, w))
  {
    if w > 0 {
      DigitsRead(n / 10, w - 1);
      var s := Digits(n, w);
      assert s[..|s| - 1] == Digits(n / 10, w - 1);
      DigitIs(n % 10);
      assert s[|s| - 1] == Digit(n % 10);
      assert DIGITS[n % 10] in DIGITS;
    }
  }

  lemma PaddedReads(n: nat, w: nat)
    requires w > 0
    ensures var s := Padded(n, w);
            && Value(s) == n && AllDigits(s) && |s| >= w && (|s| > w ==> n >= Pow10(w))
  {
    hide Digits;
    WidthBounds(n);
    var v := |Padded(n, w)|;
    Pow10Monotone(Width(n), v);
    DigitsRead(n, v);
    if v > w {
      Pow10Monotone(w, Width(n) - 1);
    }
  }

  /** A segment name: "mq-", the number in four digits, or more if it needs them, and ".log". */
  lemma SegmentNameReads(n: nat)
    ensures var name := SegmentName(n);
            && |name| >= 11 && name[..3] == "mq-" && name[|name| - 4..] == ".log"
            && var digits := name[3..|name| - 4];
               AllDigits(digits) && Value(digits) == n && (|digits| > 4 ==> n >= 10000)
  {
    hide Padded, AllDigits, Value;
    PaddedReads(n, 4);
    var name := SegmentName(n);
    assert name[3..|name| - 4] == Padded(n, 4);
    assert name[|name| - 4..] == ".log";
    assert name[..3] == "mq-";
    assert Pow10(4) == 10000;
  }

  /** Which files of the directory are segments. */
  lemma SegmentFilesMatch(name: string)
    ensures IsSegmentFile(name) <==> exists x: string :: name == "mq-" + x + ".log"
  {
    if IsSegmentFile(name) {
      assert name == "mq-" + name[3..|name| - 4] + ".log";
    }
    if x: string :| name == "mq-" + x + ".log" {
      assert name[..3] == "mq-" && name[|name| - 4..] == ".log";
    }
  }

  /** A message id: "M", the milliseconds in decimal, and the number in six digits, or more if it needs them. */
  lemma MakeIdReads(ms: nat, counter: nat)
    ensures exists a, b ::
              && MakeId(ms, counter) == "M" + a + b
              && AllDigits(a) && Value(a) == ms && (|a| > 1 ==> ms >= 10)
              && AllDigits(b) && Value(b) == counter && |b| >= 6 && (|b| > 6 ==> counter >= 1000000)
  {
    hide Padded, AllDigits, Value;
    PaddedReads(ms, 1);
    PaddedReads(counter, 6);
    assert Pow10(1) == 10 && Pow10(6) == 1000000;
    var a, b := Padded(ms, 1), Padded(counter, 6);
    assert MakeId(ms, counter) == "M" + a + b;
  }

  // ---------- The store's answers ----------

  /** What `append` answers, in the order the source finds out: text without an encoding, fields that do not fit, a full
      last segment when there are a hundred, no disk space; else the offset, at the end of the last segment or at the
      start of a new one. */
  lemma AppendAnswers(st: Store, log: seq<seq<Stored>>, rec: Record, diskOk: bool)
    requires Holds(st, log)
    ensures var last := LogBytes(log[|log| - 1]);
            var full := |last| >= st.maxSize;
            Append(st, rec, diskOk).1 ==
            if !Utf8(rec.id) || !Utf8(rec.target) || !Utf8(rec.body) then Err(BadRecord(UnicodeError))
            else if !Fits(rec) then Err(BadRecord(StructError))
            else if full && |log| >= 100 then Err(TooManySegments)
            else if !diskOk then Err(DiskLow)
            else Ok(if full then 0 else |last|)
  {
    hide Holds, Utf8, Fits, Frame, LogBytes, Nth, Roll, Serialize;
    HoldsBasics(st, log);
    SerializeExact(rec);
    if |log| < 100 {
      RollAnswers(st, log);
    } else {
      RollRefused(st);
    }
  }

  lemma RollAnswers(st: Store, log: seq<seq<Stored>>)
    requires Holds(st, log) && |log| < 100
    ensures var r := Roll(st);
            r.Ok? && r.value.active.Some? && Contents(r.value.files, r.value.active.value) == []
  {
    hide Holds, LogBytes, SegmentName;
    HoldsBasics(st, log);
    NextName(|log|);
  }

  /** A new process: the matching files in string order, resuming the last; or, if there is none, one new segment. */
  lemma OpenExact(files: Files, indexFile: IndexFile, maxSize: int)
    ensures var r := Open(files, indexFile, maxSize);
            && r.Ok?
            && var st := r.value;
               && st.indexFile == indexFile && st.maxSize == maxSize && st.index == Empty()
               && if (forall f :: f in files ==> !IsSegmentFile(f)) then
                    && st.segments == [SegmentName(1)] && st.active == Some(SegmentName(1)) && st.activeSize == 0
                    && st.files ==
                       files[SegmentName(1) := if SegmentName(1) in files then files[SegmentName(1)] else []]
                  else
                    && Sorted(st.segments) && st.segments != [] && st.files == files
                    && (forall f :: f in st.segments <==> f in files && IsSegmentFile(f))
                    && st.active == Some(st.segments[|st.segments| - 1])
                    && st.active.value in files && st.activeSize == |files[st.active.value]|
  {
    hide IsSegmentFile, SegmentName;
    var segments := Listing(SegmentFiles(files));
    if segments != [] {
      assert segments[|segments| - 1] in segments;
    }
    if f :| f in files && IsSegmentFile(f) {
      assert f in SegmentFiles(files);
    }
  }

  // ---------- Recovery ----------

  /** What `read_at` makes of the index entry at position `i`. */
  function Entry(files: Files, index: Dict<bytes, Location>, i: nat): ReadResult
    requires i < |index.keys| && index.keys[i] in index.vals
  {
    ReadAt(files, index.vals[index.keys[i]])
  }

  ghost predicate Indexes(index: Dict<bytes, Location>) {
    forall i :: 0 <= i < |index.keys| ==> index.keys[i] in index.vals
  }

  ghost predicate Ascending(at: seq<nat>, n: nat) {
    && (forall k :: 0 <= k < |at| ==> at[k] < n)
    && (forall j, k :: 0 <= j < k < |at| ==> at[j] < at[k])
  }

  /** Recovery by the index fails exactly when undecodable text stands behind an entry; else it yields, in index order
      and each once, the records of just those entries that can be read. `at` lists their positions. */
  lemma {:induction false} EntriesExact(files: Files, index: Dict<bytes, Location>, n: nat) returns (at: seq<nat>)
    requires n <= |index.keys| && Indexes(index)
    ensures Ascending(at, n)
    ensures var r := ReadEntries(files, index, n);
            if exists i :: 0 <= i < n && Entry(files, index, i).Raised? then r == Err(BadRecord(UnicodeError))
            else
              && r.Ok? && |r.value| == |at|
              && (forall k :: 0 <= k < |at| ==> Entry(files, index, at[k]) == Found(r.value[k]))
              && (forall i :: 0 <= i < n && Entry(files, index, i).Found? ==> i in at)
  {
    hide ReadAt;
    if n == 0 {
      at := [];
    } else {
      var before := EntriesExact(files, index, n - 1);
      at := before;
      var e := Entry(files, index, n - 1);
      assert ReadEntries(files, index, n) ==
             match ReadEntries(files, index, n - 1)
             case Err(x) => Err(x)
             case Ok(rs) =>
               (match e
                case Found(rec) => Ok(rs + [rec])
                case NotFound => Ok(rs)
                case Raised => Err(BadRecord(UnicodeError)));
      if e.Found? {
        at := before + [n - 1];
        assert forall i :: i in before ==> i in at;
        assert at[|before|] == n - 1;
      }
    }
  }

  /** `recover`: the saved index replaces the one in memory, a damaged one empties it, a missing one leaves it; if it
      has entries they are read, and otherwise the segments are scanned and what is found is indexed. */
  lemma RecoverExact(st: Store)
    ensures var (st', r) := Recover(st);
            var index := if st.indexFile.Saved? then st.indexFile.entries
                         else if st.indexFile.Corrupt? then Dict([], map[])
                         else st.index;
            if index.keys != [] then st' == st.(index := index) && r == ReadEntries(st.files, index, |index.keys|)
            else
              && st' == st.(index := PutAll(index, ScanAll(st.files, st.segments)))
              && r == Ok(Records(ScanAll(st.files, st.segments)))
  {
    hide ScanAll, PutAll, ReadEntries;
  }
}
