/** The record format of `src/persistence.py`: `serialize` and `deserialize`. */
module Codec {

  import opened Common
  import opened BigEndian

  // ---------- Text ----------

  predicate Tail(b: byte) {
    0x80 <= b <= 0xBF
  }

  /** How many bytes the well-formed UTF-8 character at position `i` takes; 0 when there is none. */
  function CharWidth(s: bytes, i: nat): (n: nat)
    requires i <= |s|
    ensures i + n <= |s|
  {
    var left := |s| - i;
    if left >= 1 && s[i] <= 0x7F then 1
    else if left >= 2 && 0xC2 <= s[i] <= 0xDF && Tail(s[i + 1]) then 2
    else if left >= 3 && Tail(s[i + 1]) && Tail(s[i + 2]) && ThreeByteLead(s[i], s[i + 1]) then 3
    else if left >= 4 && Tail(s[i + 1]) && Tail(s[i + 2]) && Tail(s[i + 3]) && FourByteLead(s[i], s[i + 1]) then 4
    else 0
  }

  predicate ThreeByteLead(a: byte, b: byte) {
    if a == 0xE0 then 0xA0 <= b else if a == 0xED then b <= 0x9F else 0xE1 <= a <= 0xEF
  }

  predicate FourByteLead(a: byte, b: byte) {
    if a == 0xF0 then 0x90 <= b else if a == 0xF4 then b <= 0x8F else 0xF1 <= a <= 0xF3
  }

  predicate Utf8From(s: bytes, i: nat)
    requires i <= |s|
    decreases |s| - i
  {
    i == |s| || (CharWidth(s, i) > 0 && Utf8From(s, i + CharWidth(s, i)))
  }

  /** The bytes that `bytes.decode("utf-8")` accepts. */
  predicate Utf8(s: bytes) {
    Utf8From(s, 0)
  }

  // ---------- Records ----------

  /** The durable fields of a message. A string is held as the bytes of its UTF-8 encoding; one that has no
      such encoding (it contains lone surrogates) is any byte sequence that is not well-formed. */
  datatype Record = Record(id: bytes, target: bytes, body: bytes, timestamp: int, ttl: int, ackTimeout: int)

  datatype CodecError = StructError | UnicodeError

  /** Bytes a record takes in the log, its 4-byte header included. */
  function Size(r: Record): nat {
    28 + |r.id| + |r.target| + |r.body|
  }

  predicate Encodable(r: Record) {
    Utf8(r.id) && Utf8(r.target) && Utf8(r.body)
  }

  /** Every field fits the width `struct` gives it, the total length apart, and every string has an encoding. */
  predicate FieldsFit(r: Record) {
    && Encodable(r)
    && |r.id| < Span(2)
    && |r.target| < Span(2)
    && |r.body| < Span(4)
    && FitsSigned(r.timestamp, 8)
    && FitsSigned(r.ttl, 4)
    && FitsSigned(r.ackTimeout, 4)
  }

  predicate Fits(r: Record) {
    FieldsFit(r) && Size(r) - 4 < Span(4)
  }

  /** What follows the 4-byte total length. */
  function Payload(r: Record): (s: bytes)
    requires FieldsFit(r)
    ensures |s| == Size(r) - 4
  {
    (Encode(|r.id|, 2) + r.id) +
    ((Encode(|r.target|, 2) + r.target) +
    ((Encode(|r.body|, 4) + r.body) +
    (EncodeSigned(r.timestamp, 8) + (EncodeSigned(r.ttl, 4) + EncodeSigned(r.ackTimeout, 4)))))
  }

  function Serialize(r: Record): Result<bytes, CodecError> {
    if !Encodable(r) then Err(UnicodeError)
    else if !Fits(r) then Err(StructError)
    else Ok(Encode(Size(r) - 4, 4) + Payload(r))
  }

  function UnpackRaw(d: bytes, p: nat, n: nat): Result<bytes, CodecError> {
    if p + n <= |d| then Ok(d[p..p + n]) else Err(StructError)
  }

  function UnpackUnsigned(d: bytes, p: nat, w: nat): Result<nat, CodecError> {
    var raw :- UnpackRaw(d, p, w);
    Ok(Decode(raw))
  }

  function UnpackSigned(d: bytes, p: nat, w: nat): Result<int, CodecError>
    requires w > 0
  {
    var raw :- UnpackRaw(d, p, w);
    Ok(DecodeSigned(raw))
  }

  /** A `w`-byte length followed by that many bytes of text. */
  function UnpackText(d: bytes, p: nat, w: nat): Result<bytes, CodecError> {
    var n :- UnpackUnsigned(d, p, w);
    var raw :- UnpackRaw(d, p + w, n);
    if Utf8(raw) then Ok(raw) else Err(UnicodeError)
  }

  /** The three integers that close a record. */
  function UnpackNumbers(d: bytes, offset: nat): Result<(int, int, int), CodecError> {
    var timestamp :- UnpackSigned(d, offset, 8);
    var ttl :- UnpackSigned(d, offset + 8, 4);
    var ackTimeout :- UnpackSigned(d, offset + 12, 4);
    Ok((timestamp, ttl, ackTimeout))
  }

  function Deserialize(d: bytes): Result<Record, CodecError> {
    var _ :- UnpackUnsigned(d, 0, 4);
    var id :- UnpackText(d, 4, 2);
    var target :- UnpackText(d, 6 + |id|, 2);
    var body :- UnpackText(d, 8 + |id| + |target|, 4);
    var numbers :- UnpackNumbers(d, 12 + |id| + |target| + |body|);
    Ok(Record(id, target, body, numbers.0, numbers.1, numbers.2))
  }

  // ---------- What `deserialize` accepts ----------

  ghost predicate At(d: bytes, p: nat, x: bytes) {
    p + |x| <= |d| && d[p..p + |x|] == x
  }

  lemma AtSplit(d: bytes, p: nat, x: bytes, y: bytes)
    ensures At(d, p, x + y) <==> At(d, p, x) && At(d, p + |x|, y)
  {
    var z := x + y;
    if p + |z| <= |d| {
      assert d[p..p + |z|] == d[p..p + |x|] + d[p + |x|..p + |x| + |y|];
      assert z[..|x|] == x && z[|x|..] == y;
    }
  }

  lemma UnsignedField(d: bytes, p: nat, n: nat, w: nat)
    ensures UnpackUnsigned(d, p, w) == Ok(n) <==> n < Span(w) && At(d, p, Encode(n, w))
  {
    hide Encode, Decode, Span;
    if p + w <= |d| {
      EncodeDecode(d[p..p + w]);
      if n < Span(w) {
        DecodeEncode(n, w);
      }
    }
  }

  lemma TextField(d: bytes, p: nat, x: bytes, w: nat)
    ensures UnpackText(d, p, w) == Ok(x) <==> Utf8(x) && |x| < Span(w) && At(d, p, Encode(|x|, w) + x)
  {
    hide Encode, Decode, DecodeSigned, EncodeSigned, FitsSigned, Span, Utf8;
    if UnpackText(d, p, w) == Ok(x) {
      assert UnpackUnsigned(d, p, w) == Ok(|x|);
    }
    UnsignedField(d, p, |x|, w);
    AtSplit(d, p, Encode(|x|, w), x);
  }

  lemma SignedField(d: bytes, p: nat, x: int, w: nat)
    requires w > 0
    ensures UnpackSigned(d, p, w) == Ok(x) <==> FitsSigned(x, w) && At(d, p, EncodeSigned(x, w))
  {
    if p + w <= |d| {
      SignedRoundTripBack(d[p..p + w]);
      if FitsSigned(x, w) {
        SignedRoundTrip(x, w);
      }
    }
  }

  /** `Payload(r)` lies at position 4 exactly when each field lies at its own offset. */
  lemma PayloadAt(d: bytes, r: Record)
    requires FieldsFit(r)
    ensures var p, q, e := 6 + |r.id|, 8 + |r.id| + |r.target|, 12 + |r.id| + |r.target| + |r.body|;
            At(d, 4, Payload(r)) <==>
            && At(d, 4, Encode(|r.id|, 2) + r.id)
            && At(d, p, Encode(|r.target|, 2) + r.target)
            && At(d, q, Encode(|r.body|, 4) + r.body)
            && At(d, e, EncodeSigned(r.timestamp, 8)) && At(d, e + 8, EncodeSigned(r.ttl, 4))
            && At(d, e + 12, EncodeSigned(r.ackTimeout, 4))
  {
    hide At, Encode, Decode, DecodeSigned, EncodeSigned, FitsSigned, Span, Utf8;
    var p, q, e := 6 + |r.id|, 8 + |r.id| + |r.target|, 12 + |r.id| + |r.target| + |r.body|;
    var s8 := EncodeSigned(r.ttl, 4) + EncodeSigned(r.ackTimeout, 4);
    var s7 := EncodeSigned(r.timestamp, 8) + s8;
    var s5 := Encode(|r.body|, 4) + r.body;
    var s3 := Encode(|r.target|, 2) + r.target;
    var s1 := Encode(|r.id|, 2) + r.id;
    AtSplit(d, 4, s1, s3 + (s5 + s7));
    AtSplit(d, p, s3, s5 + s7);
    AtSplit(d, q, s5, s7);
    AtSplit(d, e, EncodeSigned(r.timestamp, 8), s8);
    AtSplit(d, e + 8, EncodeSigned(r.ttl, 4), EncodeSigned(r.ackTimeout, 4));
  }

  lemma NumberFields(d: bytes, e: nat, r: Record)
    ensures UnpackNumbers(d, e) == Ok((r.timestamp, r.ttl, r.ackTimeout)) <==>
            && UnpackSigned(d, e, 8) == Ok(r.timestamp)
            && UnpackSigned(d, e + 8, 4) == Ok(r.ttl)
            && UnpackSigned(d, e + 12, 4) == Ok(r.ackTimeout)
  {
    hide Encode, Decode, DecodeSigned, EncodeSigned, FitsSigned, Span, Utf8;
  }

  lemma DeserializeFields(d: bytes, r: Record)
    ensures var p, q, e := 6 + |r.id|, 8 + |r.id| + |r.target|, 12 + |r.id| + |r.target| + |r.body|;
            Deserialize(d) == Ok(r) <==>
            && |d| >= 4
            && UnpackText(d, 4, 2) == Ok(r.id)
            && UnpackText(d, p, 2) == Ok(r.target)
            && UnpackText(d, q, 4) == Ok(r.body)
            && UnpackNumbers(d, e) == Ok((r.timestamp, r.ttl, r.ackTimeout))
  {
    hide Encode, Decode, DecodeSigned, EncodeSigned, FitsSigned, Span, Utf8;
  }

  /** Soundness and completeness of `deserialize`: it returns `r` exactly when `r`'s fields, each of a
      packable width, stand behind four bytes of anything. The header value and all trailing bytes are ignored. */
  lemma DeserializeExact(d: bytes, r: Record)
    ensures Deserialize(d) == Ok(r) <==> FieldsFit(r) && |d| >= 4 && At(d, 4, Payload(r))
  {
    hide At, Deserialize, UnpackText, UnpackSigned, UnpackNumbers, Payload, Encode, Decode, DecodeSigned, EncodeSigned,
      FitsSigned, Span, Utf8;
    DeserializeFields(d, r);
    var p, q, e := 6 + |r.id|, 8 + |r.id| + |r.target|, 12 + |r.id| + |r.target| + |r.body|;
    TextField(d, 4, r.id, 2);
    TextField(d, p, r.target, 2);
    TextField(d, q, r.body, 4);
    NumberFields(d, e, r);
    SignedField(d, e, r.timestamp, 8);
    SignedField(d, e + 8, r.ttl, 4);
    SignedField(d, e + 12, r.ackTimeout, 4);
    if FieldsFit(r) {
      PayloadAt(d, r);
    }
  }

  // ---------- Inverses ----------

  /** Every packable record survives, whatever follows it. */
  lemma RoundTrip(r: Record, suffix: bytes)
    requires Fits(r)
    ensures Deserialize(Serialize(r).value + suffix) == Ok(r)
  {
    hide Encode, Decode, DecodeSigned, EncodeSigned, FitsSigned, Span, Utf8;
    var d := Serialize(r).value + suffix;
    assert d[4..4 + |Payload(r)|] == Payload(r);
    DeserializeExact(d, r);
  }

  /** Bytes that decode, have no byte to spare and carry the right total length are what `serialize` writes. */
  lemma RoundTripBack(raw: bytes)
    requires Deserialize(raw).Ok?
    requires |raw| == Size(Deserialize(raw).value)
    requires Decode(raw[..4]) == |raw| - 4
    ensures Serialize(Deserialize(raw).value) == Ok(raw)
  {
    hide Encode, Decode, DecodeSigned, EncodeSigned, FitsSigned, Span, Utf8, Deserialize, Payload;
    var r := Deserialize(raw).value;
    DeserializeExact(raw, r);
    EncodeDecode(raw[..4]);
    assert raw == raw[..4] + raw[4..|raw|];
  }

  /** Whatever decodes keeps decoding to the same record when more bytes follow, and took at least `Size` bytes. */
  lemma DecodeMonotone(d: bytes, suffix: bytes)
    requires Deserialize(d).Ok?
    ensures Deserialize(d + suffix) == Deserialize(d)
    ensures |d| >= Size(Deserialize(d).value) >= 28
  {
    hide Encode, Decode, DecodeSigned, EncodeSigned, FitsSigned, Span, Utf8;
    var r := Deserialize(d).value;
    DeserializeExact(d, r);
    assert (d + suffix)[4..4 + |Payload(r)|] == d[4..4 + |Payload(r)|];
    DeserializeExact(d + suffix, r);
  }

  /** A record cut short never decodes. */
  lemma PartialNeverDecodes(r: Record, n: nat)
    requires Fits(r) && n < Size(r)
    ensures Deserialize(Serialize(r).value[..n]).Err?
  {
    hide Encode, Decode, DecodeSigned, EncodeSigned, FitsSigned, Span, Utf8;
    var d := Serialize(r).value;
    RoundTrip(r, []);
    assert d + [] == d == d[..n] + d[n..];
    if Deserialize(d[..n]).Ok? {
      DecodeMonotone(d[..n], d[n..]);
    }
  }

  /** A record the log can hold. */
  type Stored = r: Record | Fits(r) witness Record([], [], [], 0, 0, 0)

  function Frame(r: Stored): (s: bytes)
    ensures |s| == Size(r)
  {
    Serialize(r).value
  }

  /** No record is a proper prefix of another; equal bytes mean equal records. */
  lemma PrefixFree(a: Stored, b: Stored, suffix: bytes)
    requires Frame(a) + suffix == Frame(b)
    ensures a == b && suffix == []
  {
    hide Encode, Decode, DecodeSigned, EncodeSigned, FitsSigned, Span, Utf8;
    RoundTrip(a, suffix);
    RoundTrip(b, []);
    assert Frame(b) + [] == Frame(b);
    assert |Frame(a)| + |suffix| == |Frame(b)|;
  }

  // ---------- Logs ----------

  /** The contents of a segment file that holds `rs`. */
  function LogBytes(rs: seq<Stored>): bytes {
    if rs == [] then [] else Frame(rs[0]) + LogBytes(rs[1..])
  }

  lemma {:induction false} LogBytesAppend(a: seq<Stored>, b: seq<Stored>)
    ensures LogBytes(a + b) == LogBytes(a) + LogBytes(b)
  {
    if a == [] {
      assert a + b == b;
    } else {
      assert (a + b)[1..] == a[1..] + b;
      LogBytesAppend(a[1..], b);
    }
  }

  /** A log splits into records in one way only. */
  lemma {:induction false} LogSplitsUniquely(a: seq<Stored>, b: seq<Stored>)
    requires LogBytes(a) == LogBytes(b)
    ensures a == b
  {
    if a != [] && b != [] {
      RoundTrip(a[0], LogBytes(a[1..]));
      RoundTrip(b[0], LogBytes(b[1..]));
      var n := |Frame(a[0])|;
      assert LogBytes(a)[n..] == LogBytes(a[1..]);
      assert LogBytes(b)[n..] == LogBytes(b[1..]);
      LogSplitsUniquely(a[1..], b[1..]);
    }
  }
}
