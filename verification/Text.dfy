/** The string methods of Python that the wire protocol uses: `strip`, `split(" ")`, `" ".join`, `upper`. */
module Text {

  /** `str.isspace` on one character. */
  predicate IsSpace(c: char) {
    var n := c as int;
    || 0x09 <= n <= 0x0D || 0x1C <= n <= 0x20 || n == 0x85 || n == 0xA0 || n == 0x1680
    || 0x2000 <= n <= 0x200A || n == 0x2028 || n == 0x2029 || n == 0x202F || n == 0x205F || n == 0x3000
  }

  function LeftStrip(s: string): string {
    if s != "" && IsSpace(s[0]) then LeftStrip(s[1..]) else s
  }

  function RightStrip(s: string): string {
    if s != "" && IsSpace(s[|s| - 1]) then RightStrip(s[..|s| - 1]) else s
  }

  function Strip(s: string): string {
    RightStrip(LeftStrip(s))
  }

  lemma {:induction false} LeftStripSuffix(s: string)
    ensures |LeftStrip(s)| <= |s|
    ensures |LeftStrip(s)| == |s| ==> LeftStrip(s) == s
  {
    if s != "" && IsSpace(s[0]) {
      LeftStripSuffix(s[1..]);
    }
  }

  lemma {:induction false} RightStripPrefix(s: string)
    ensures |RightStrip(s)| <= |s|
    ensures |RightStrip(s)| == |s| ==> RightStrip(s) == s && (s != "" ==> !IsSpace(s[|s| - 1]))
    ensures RightStrip(s) != "" ==> !IsSpace(RightStrip(s)[|RightStrip(s)| - 1])
  {
    if s != "" && IsSpace(s[|s| - 1]) {
      RightStripPrefix(s[..|s| - 1]);
    }
  }

  /** Stripping keeps the length only of a text that neither begins nor ends with whitespace. */
  lemma StripShortens(s: string)
    ensures |Strip(s)| <= |s|
    ensures |Strip(s)| == |s| ==> Strip(s) == s && (s != "" ==> !IsSpace(s[|s| - 1]))
  {
    LeftStripSuffix(s);
    RightStripPrefix(LeftStrip(s));
  }

  predicate Blank(s: string) {
    forall i :: 0 <= i < |s| ==> IsSpace(s[i])
  }

  /** What is left after stripping: whitespace went from both ends, all of it and nothing else. */
  ghost predicate StripsTo(s: string, core: string) {
    && (exists before, after :: s == before + core + after && Blank(before) && Blank(after))
    && (core != "" ==> !IsSpace(core[0]) && !IsSpace(core[|core| - 1]))
  }

  lemma BlankMore(a: string, b: string)
    requires Blank(a) && Blank(b)
    ensures Blank(a + b)
  {
    hide IsSpace;
  }

  lemma {:induction false} LeftStripExact(s: string) returns (before: string)
    ensures Blank(before) && s == before + LeftStrip(s)
    ensures LeftStrip(s) != "" ==> !IsSpace(LeftStrip(s)[0])
  {
    hide IsSpace;
    before := "";
    if s != "" && IsSpace(s[0]) {
      hide Blank;
      var rest := LeftStripExact(s[1..]);
      OneBlank(s[0]);
      BlankMore([s[0]], rest);
      before := [s[0]] + rest;
    }
  }

  lemma OneBlank(c: char)
    requires IsSpace(c)
    ensures Blank([c])
  {
    hide IsSpace;
  }

  lemma {:induction false} RightStripExact(s: string) returns (after: string)
    ensures Blank(after) && s == RightStrip(s) + after
    ensures RightStrip(s) != "" ==> !IsSpace(RightStrip(s)[|RightStrip(s)| - 1])
  {
    hide IsSpace;
    after := "";
    if s != "" && IsSpace(s[|s| - 1]) {
      hide Blank;
      var rest := RightStripExact(s[..|s| - 1]);
      OneBlank(s[|s| - 1]);
      BlankMore(rest, [s[|s| - 1]]);
      after := rest + [s[|s| - 1]];
    }
  }

  lemma StripExact(s: string)
    ensures StripsTo(s, Strip(s))
  {
    hide IsSpace, LeftStrip, RightStrip, Blank;
    var before := LeftStripExact(s);
    var after := RightStripExact(LeftStrip(s));
    assert s == before + Strip(s) + after;
    if Strip(s) != "" {
      assert LeftStrip(s)[0] == Strip(s)[0];
    }
  }

  /** Where the text, its blank margins apart, lies. */
  lemma Margins(s: string, before: string, core: string, after: string)
    requires s == before + core + after && Blank(before) && Blank(after)
    ensures forall p :: 0 <= p < |before| ==> IsSpace(s[p])
    ensures forall p :: |before| + |core| <= p < |s| ==> IsSpace(s[p])
    ensures core == s[|before|..|before| + |core|]
    ensures core != "" ==> s[|before|] == core[0] && s[|before| + |core| - 1] == core[|core| - 1]
  {
    hide IsSpace;
    forall p | |before| + |core| <= p < |s|
      ensures IsSpace(s[p])
    {
      assert s[p] == after[p - |before| - |core|];
    }
  }

  /** The definition of stripping leaves no choice. */
  lemma StripUnique(s: string, core: string)
    requires StripsTo(s, core)
    ensures Strip(s) == core
  {
    hide IsSpace, Strip, Blank;
    StripExact(s);
    var b1, a1 :| s == b1 + core + a1 && Blank(b1) && Blank(a1);
    var b2, a2 :| s == b2 + Strip(s) + a2 && Blank(b2) && Blank(a2);
    Margins(s, b1, core, a1);
    Margins(s, b2, Strip(s), a2);
  }

  const SPACES: seq<int> := [
    9, 10, 11, 12, 13, 28, 29, 30, 31, 32, 133, 160, 5760, 8192, 8193, 8194, 8195, 8196, 8197, 8198, 8199, 8200, 8201,
    8202, 8232, 8233, 8239, 8287, 12288]

  /** The code points that Python counts as whitespace, one by one. */
  lemma SpaceCodes(c: char)
    ensures IsSpace(c) <==> c as int in SPACES
  {
  }

  // ---------- Splitting at spaces ----------

  function Split(s: string): (parts: seq<string>)
    ensures |parts| >= 1
  {
    if s == "" then [""]
    else
      var rest := Split(s[1..]);
      if s[0] == ' ' then [""] + rest else [[s[0]] + rest[0]] + rest[1..]
  }

  function Join(parts: seq<string>): string {
    if parts == [] then ""
    else if |parts| == 1 then parts[0]
    else parts[0] + " " + Join(parts[1..])
  }

  predicate NoSpace(s: string) {
    ' ' !in s
  }

  /** Splitting loses nothing, and no part holds a space. */
  lemma {:induction false} JoinSplit(s: string)
    ensures Join(Split(s)) == s
    ensures forall i :: 0 <= i < |Split(s)| ==> NoSpace(Split(s)[i])
  {
    if s != "" {
      JoinSplit(s[1..]);
      var rest := Split(s[1..]);
      assert s == [s[0]] + s[1..];
      if s[0] == ' ' {
        assert Split(s)[1..] == rest;
      } else {
        assert Split(s)[1..] == rest[1..];
        assert ([s[0]] + rest[0]) + " " + Join(rest[1..]) == [s[0]] + (rest[0] + " " + Join(rest[1..]));
      }
    }
  }

  /** A space-free word in front is the first part. */
  lemma {:induction false} SplitWord(word: string, rest: string)
    requires NoSpace(word)
    ensures Split(word + " " + rest) == [word] + Split(rest)
  {
    var s := word + " " + rest;
    if word == "" {
      assert s[1..] == rest;
    } else {
      assert s[1..] == word[1..] + " " + rest;
      assert word[0] in word;
      SplitWord(word[1..], rest);
      assert [word[0]] + word[1..] == word;
    }
  }

  lemma {:induction false} JoinNested(head: seq<string>, tail: seq<string>)
    requires tail != []
    ensures Join(head + [Join(tail)]) == Join(head + tail)
  {
    if head == [] {
      assert head + [Join(tail)] == [Join(tail)] && head + tail == tail;
    } else {
      assert (head + [Join(tail)])[1..] == head[1..] + [Join(tail)];
      assert (head + tail)[1..] == head[1..] + tail;
      JoinNested(head[1..], tail);
    }
  }

  /** Splitting is the inverse of joining space-free parts. */
  lemma {:induction false} SplitJoin(parts: seq<string>)
    requires parts != [] && forall i :: 0 <= i < |parts| ==> NoSpace(parts[i])
    ensures Split(Join(parts)) == parts
  {
    if |parts| == 1 {
      SplitOne(parts[0]);
      assert parts == [parts[0]];
    } else {
      SplitJoin(parts[1..]);
      SplitWord(parts[0], Join(parts[1..]));
      assert parts == [parts[0]] + parts[1..];
    }
  }

  lemma {:induction false} SplitOne(word: string)
    requires NoSpace(word)
    ensures Split(word) == [word]
  {
    if word != "" {
      assert word[0] in word;
      SplitOne(word[1..]);
      assert [word[0]] + word[1..] == word;
    }
  }

  // ---------- Case ----------

  function UpperChar(c: char): char {
    if 'a' <= c <= 'z' then (c as int - 32) as char else c
  }

  /** `upper` on ASCII text. */
  function Upper(s: string): (r: string)
    ensures |r| == |s|
  {
    seq(|s|, i requires 0 <= i < |s| => UpperChar(s[i]))
  }

  const LOWER := "abcdefghijklmnopqrstuvwxyz"
  const UPPER := "ABCDEFGHIJKLMNOPQRSTUVWXYZ"

  /** The letters change to the capitals at their places; nothing else changes. */
  lemma UpperLetters(c: char)
    ensures if c in LOWER then exists k :: 0 <= k < 26 && LOWER[k] == c && UPPER[k] == UpperChar(c)
            else UpperChar(c) == c
  {
    if 'a' <= c <= 'z' {
      var k := c as int - 'a' as int;
      LetterAt(k);
      assert LOWER[k] == c && UPPER[k] == UpperChar(c);
    }
  }

  lemma LetterAt(k: nat)
    requires k < 26
    ensures LOWER[k] as int == 'a' as int + k && UPPER[k] as int == 'A' as int + k
  {
  }
}
