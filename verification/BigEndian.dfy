/** Fixed-width big-endian integers, as `struct` packs them under the ">" prefix. */
module BigEndian {

  type byte = b: int | 0 <= b < 256
  type bytes = seq<byte>

  /** 256 to the power `w`: how many values `w` bytes can hold. */
  function Span(w: nat): (p: nat)
    ensures p > 0
  {
    if w == 0 then 1 else 256 * Span(w - 1)
  }

  function Encode(n: nat, w: nat): (s: bytes)
    ensures |s| == w
  {
    if w == 0 then [] else Encode(n / 256, w - 1) + [n % 256]
  }

  function Decode(s: bytes): nat {
    if s == [] then 0 else 256 * Decode(s[..|s| - 1]) + s[|s| - 1]
  }

  lemma {:induction false} DecodeEncode(n: nat, w: nat)
    requires n < Span(w)
    ensures Decode(Encode(n, w)) == n
  {
    if w > 0 {
      DecodeEncode(n / 256, w - 1);
      var s := Encode(n, w);
      assert s[..|s| - 1] == Encode(n / 256, w - 1);
    }
  }

  lemma {:induction false} EncodeDecode(s: bytes)
    ensures Decode(s) < Span(|s|)
    ensures Encode(Decode(s), |s|) == s
  {
    if s != [] {
      var t := s[..|s| - 1];
      EncodeDecode(t);
      assert Decode(s) / 256 == Decode(t) && Decode(s) % 256 == s[|s| - 1];
      assert s == t + [s[|s| - 1]];
    }
  }

  /** Two's complement on `w` bytes. */
  predicate FitsSigned(x: int, w: nat) {
    -(Span(w) / 2) <= x < Span(w) / 2
  }

  function EncodeSigned(x: int, w: nat): (s: bytes)
    requires 0 < w && FitsSigned(x, w)
    ensures |s| == w
  {
    Encode(if x < 0 then x + Span(w) else x, w)
  }

  function DecodeSigned(s: bytes): int
    requires s != []
  {
    var n := Decode(s);
    if n < Span(|s|) / 2 then n else n - Span(|s|)
  }

  lemma SignedRoundTrip(x: int, w: nat)
    requires 0 < w && FitsSigned(x, w)
    ensures DecodeSigned(EncodeSigned(x, w)) == x
  {
    DecodeEncode(if x < 0 then x + Span(w) else x, w);
    assert Span(w) == 256 * Span(w - 1);
  }

  lemma SignedRoundTripBack(s: bytes)
    requires s != []
    ensures FitsSigned(DecodeSigned(s), |s|)
    ensures EncodeSigned(DecodeSigned(s), |s|) == s
  {
    EncodeDecode(s);
    var w := |s|;
    var half := 128 * Span(w - 1);
    assert Span(w) == 2 * half && Span(w) / 2 == half;
    var n := Decode(s);
    assert DecodeSigned(s) == if n < half then n else n - 2 * half;
  }
}
