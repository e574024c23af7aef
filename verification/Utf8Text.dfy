/** `str.encode("utf-8")` and its inverse: the strings of the broker and the bytes of the log. */
module Utf8Text {

  import opened BigEndian
  import opened Codec
  import opened Lifecycle

  /** The last six bits of a code point without its last `k` groups of six. */
  function Group(n: nat, k: nat): (g: nat)
    requires k <= 2
    ensures g < 64
  {
    if k == 0 then n % 64 else if k == 1 then n / 64 % 64 else n / 64 / 64 % 64
  }

  function EncodeChar(c: char): (s: bytes)
    ensures 1 <= |s| <= 4
  {
    var n := c as int;
    if n < 0x80 then [n]
    else if n < 0x800 then [0xC0 + n / 64, 0x80 + Group(n, 0)]
    else if n < 0x10000 then [0xE0 + n / 64 / 64, 0x80 + Group(n, 1), 0x80 + Group(n, 0)]
    else [0xF0 + n / 64 / 64 / 64, 0x80 + Group(n, 2), 0x80 + Group(n, 1), 0x80 + Group(n, 0)]
  }

  function EncodeText(t: string): (s: bytes) {
    if t == "" then [] else EncodeChar(t[0]) + EncodeText(t[1..])
  }

  /** The code point of the well-formed character at `i`. */
  function CodeAt(s: bytes, i: nat): (n: nat)
    requires i <= |s| && CharWidth(s, i) > 0
    ensures n < 0xD800 || 0xE000 <= n < 0x110000
  {
    var w := CharWidth(s, i);
    var a: int := s[i];
    if w == 1 then a
    else
      var b: int := s[i + 1];
      if w == 2 then Joined(a - 0xC0, b - 0x80)
      else
        var c: int := s[i + 2];
        if w == 3 then Joined(Joined(a - 0xE0, b - 0x80), c - 0x80)
        else
          var d: int := s[i + 3];
          Joined(Joined(Joined(a - 0xF0, b - 0x80), c - 0x80), d - 0x80)
  }

  /** A group of six bits behind the bits of `n`. */
  function Joined(n: int, g: int): int {
    64 * n + g
  }

  lemma JoinSplit(n: nat)
    ensures Joined(n / 64, n % 64) == n
  {
  }

  lemma SplitJoin(n: nat, g: nat)
    requires g < 64
    ensures Joined(n, g) / 64 == n && Joined(n, g) % 64 == g
  {
  }

  function DecodeFrom(s: bytes, i: nat): string
    requires i <= |s|
    decreases |s| - i
  {
    if CharWidth(s, i) == 0 then "" else [CodeAt(s, i) as char] + DecodeFrom(s, i + CharWidth(s, i))
  }

  /** Meant for bytes that `Utf8` accepts. */
  function DecodeText(s: bytes): string {
    DecodeFrom(s, 0)
  }

  lemma CharAt(pre: bytes, c: char, rest: bytes)
    ensures var s := pre + EncodeChar(c) + rest;
            CharWidth(s, |pre|) == |EncodeChar(c)| && CodeAt(s, |pre|) == c as int
  {
    var e := EncodeChar(c);
    var s := pre + e + rest;
    assert forall k :: 0 <= k < |e| ==> s[|pre| + k] == e[k];
    CharRead(s, |pre|, c);
  }

  lemma CharRead(s: bytes, i: nat, c: char)
    requires i + |EncodeChar(c)| <= |s|
    requires forall k :: 0 <= k < |EncodeChar(c)| ==> s[i + k] == EncodeChar(c)[k]
    ensures CharWidth(s, i) == |EncodeChar(c)| && CodeAt(s, i) == c as int
  {
    hide Joined;
    var n := c as int;
    var e := EncodeChar(c);
    assert s[i] == e[0];
    assert |e| > 1 ==> s[i + 1] == e[1];
    assert |e| > 2 ==> s[i + 2] == e[2];
    assert |e| > 3 ==> s[i + 3] == e[3];
    JoinSplit(n);
    JoinSplit(n / 64);
    JoinSplit(n / 64 / 64);
  }

  /** The bytes of a character: as many as its code point needs, whose payload bits put together are the code point. */
  lemma EncodeCharExact(c: char)
    ensures var n := c as int;
            var e := EncodeChar(c);
            && |e| == (if n < 128 then 1 else if n < 2048 then 2 else if n < 65536 then 3 else 4)
            && (|e| == 1 ==> n == e[0])
            && (|e| == 2 ==> 192 <= e[0] < 224 && n == Bits(e[0] - 192, [e[1]]))
            && (|e| == 3 ==> 224 <= e[0] < 240 && n == Bits(e[0] - 224, [e[1], e[2]]))
            && (|e| == 4 ==> 240 <= e[0] < 248 && n == Bits(e[0] - 240, [e[1], e[2], e[3]]))
            && forall i :: 0 < i < |e| ==> 128 <= e[i] < 192
  {
    var n := c as int;
    var e := EncodeChar(c);
    JoinSplit(n);
    JoinSplit(n / 64);
    JoinSplit(n / 64 / 64);
    if |e| == 2 {
      OneMore(e[0] - 192, [], e[1]);
      assert [] + [e[1]] == [e[1]];
    } else if |e| == 3 {
      OneMore(e[0] - 224, [], e[1]);
      OneMore(e[0] - 224, [e[1]], e[2]);
      assert [e[1]] + [e[2]] == [e[1], e[2]];
    } else if |e| == 4 {
      OneMore(e[0] - 240, [], e[1]);
      OneMore(e[0] - 240, [e[1]], e[2]);
      OneMore(e[0] - 240, [e[1], e[2]], e[3]);
      assert [] + [e[1]] == [e[1]] && [e[1]] + [e[2]] == [e[1], e[2]];
      assert [e[1], e[2]] + [e[3]] == [e[1], e[2], e[3]];
    }
  }

  /** The payload bits: those of the first byte, then six of each further one. */
  function Bits(first: int, more: bytes): int {
    if more == [] then first
    else
      var last: int := more[|more| - 1];
      64 * Bits(first, more[..|more| - 1]) + (last - 128)
  }

  lemma OneMore(first: int, more: bytes, b: byte)
    ensures Bits(first, []) == first
    ensures Bits(first, more + [b]) == 64 * Bits(first, more) + (b as int - 128)
  {
    assert (more + [b])[..|more|] == more;
  }

  lemma {:induction false} TextAt(pre: bytes, t: string)
    ensures Utf8From(pre + EncodeText(t), |pre|)
    ensures DecodeFrom(pre + EncodeText(t), |pre|) == t
    decreases t
  {
    hide EncodeChar, CodeAt, CharWidth;
    if t == "" {
      assert pre + EncodeText(t) == pre;
      NoCharAtEnd(pre);
    } else {
      var e := EncodeChar(t[0]);
      assert pre + EncodeText(t) == pre + e + EncodeText(t[1..]);
      CharAt(pre, t[0], EncodeText(t[1..]));
      TextAt(pre + e, t[1..]);
    }
  }

  lemma NoCharAtEnd(s: bytes)
    ensures CharWidth(s, |s|) == 0
  {
  }

  /** Every string has a well-formed encoding, and comes back from it. */
  lemma TextRoundTrip(t: string)
    ensures Utf8(EncodeText(t)) && DecodeText(EncodeText(t)) == t
  {
    TextAt([], t);
    assert [] + EncodeText(t) == EncodeText(t);
  }

  lemma GroupsOfTwo(a: nat, b: nat)
    requires b < 64
    ensures var n := Joined(a, b); n / 64 == a && Group(n, 0) == b
  {
    SplitJoin(a, b);
  }

  lemma GroupsOfThree(a: nat, b: nat, c: nat)
    requires b < 64 && c < 64
    ensures var n := Joined(Joined(a, b), c); n / 64 / 64 == a && Group(n, 1) == b && Group(n, 0) == c
  {
    hide Joined;
    SplitJoin(a, b);
    SplitJoin(Joined(a, b), c);
  }

  lemma GroupsOfFour(a: nat, b: nat, c: nat, d: nat)
    requires b < 64 && c < 64 && d < 64
    ensures var n := Joined(Joined(Joined(a, b), c), d);
            n / 64 / 64 / 64 == a && Group(n, 2) == b && Group(n, 1) == c && Group(n, 0) == d
  {
    hide Joined;
    SplitJoin(a, b);
    SplitJoin(Joined(a, b), c);
    SplitJoin(Joined(Joined(a, b), c), d);
  }

  lemma CodeEncodes(s: bytes, i: nat)
    requires i <= |s| && CharWidth(s, i) > 0
    ensures EncodeChar(CodeAt(s, i) as char) == s[i..i + CharWidth(s, i)]
  {
    hide Group;
    var w := CharWidth(s, i);
    if w == 2 {
      GroupsOfTwo(s[i] as int - 0xC0, s[i + 1] as int - 0x80);
      assert s[i..i + w] == [s[i], s[i + 1]];
    } else if w == 3 {
      GroupsOfThree(s[i] as int - 0xE0, s[i + 1] as int - 0x80, s[i + 2] as int - 0x80);
      assert s[i..i + w] == [s[i], s[i + 1], s[i + 2]];
    } else if w == 4 {
      GroupsOfFour(s[i] as int - 0xF0, s[i + 1] as int - 0x80, s[i + 2] as int - 0x80, s[i + 3] as int - 0x80);
      assert s[i..i + w] == [s[i], s[i + 1], s[i + 2], s[i + 3]];
    } else {
      assert s[i..i + w] == [s[i]];
    }
  }

  lemma {:induction false} BytesFrom(s: bytes, i: nat)
    requires i <= |s| && Utf8From(s, i)
    ensures EncodeText(DecodeFrom(s, i)) == s[i..]
    decreases |s| - i
  {
    hide EncodeChar, CodeAt, CharWidth;
    if i == |s| {
      NoCharAtEnd(s);
    } else {
      var w := CharWidth(s, i);
      CodeEncodes(s, i);
      BytesFrom(s, i + w);
      var t := DecodeFrom(s, i);
      assert t[1..] == DecodeFrom(s, i + w);
      assert s[i..] == s[i..i + w] + s[i + w..];
    }
  }

  /** And every well-formed byte sequence is the encoding of the string read from it. */
  lemma BytesRoundTrip(s: bytes)
    requires Utf8(s)
    ensures EncodeText(DecodeText(s)) == s
  {
    BytesFrom(s, 0);
  }

  /** The length that the body limit is checked against is the length of the encoding. */
  lemma {:induction false} EncodedLength(t: string)
    ensures |EncodeText(t)| == Utf8Length(t)
  {
    if t != "" {
      EncodedLength(t[1..]);
    }
  }
}
