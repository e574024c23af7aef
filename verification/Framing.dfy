/** The receive loop of `_handle_client` in `src/server.py`: cutting a stream of chunks into command lines. */
module Framing {

  import opened Text

  /** Where the first "\r\n" begins, or -1. */
  function Cut(s: string): (c: int)
    ensures -1 <= c && (c >= 0 ==> c + 2 <= |s| && s[c] == '\r' && s[c + 1] == '\n')
  {
    if |s| < 2 then -1
    else if s[0] == '\r' && s[1] == '\n' then 0
    else
      var c := Cut(s[1..]);
      if c < 0 then -1 else c + 1
  }

  /** It is the first one. */
  lemma {:induction false} CutIsFirst(s: string, i: nat)
    requires i + 2 <= |s| && s[i] == '\r' && s[i + 1] == '\n'
    ensures 0 <= Cut(s) <= i
  {
    if i > 0 {
      CutIsFirst(s[1..], i - 1);
    }
  }

  /** More text behind a line end does not move it. */
  lemma {:induction false} CutStays(a: string, b: string)
    requires Cut(a) >= 0
    ensures Cut(a + b) == Cut(a)
  {
    if !(a[0] == '\r' && a[1] == '\n') {
      CutStays(a[1..], b);
      assert (a + b)[1..] == a[1..] + b;
    }
  }

  /** The complete lines of a text, uncut, and what is left over. */
  function RawLines(buf: string): (seq<string>, string)
    decreases |buf|
  {
    var c := Cut(buf);
    if c < 0 then ([], buf)
    else
      var (lines, rest) := RawLines(buf[c + 2..]);
      ([buf[..c]] + lines, rest)
  }

  /** What is dispatched: the lines that are not blank, stripped. */
  function Dispatched(lines: seq<string>): seq<string> {
    if lines == [] then []
    else if Strip(lines[0]) == "" then Dispatched(lines[1..])
    else [Strip(lines[0])] + Dispatched(lines[1..])
  }

  function Commands(buf: string): (seq<string>, string) {
    var (lines, rest) := RawLines(buf);
    (Dispatched(lines), rest)
  }

  lemma {:induction false} DispatchedAppend(a: seq<string>, b: seq<string>)
    ensures Dispatched(a + b) == Dispatched(a) + Dispatched(b)
  {
    if a == [] {
      assert a + b == b;
    } else {
      assert (a + b)[1..] == a[1..] + b;
      DispatchedAppend(a[1..], b);
    }
  }

  /** A line is dispatched exactly when something is left of it after stripping, and then that is. */
  lemma DispatchedOne(line: string, core: string)
    requires StripsTo(line, core)
    ensures Dispatched([line]) == if core == "" then [] else [core]
  {
    hide StripsTo, Strip;
    StripUnique(line, core);
    assert [line][1..] == [];
    assert Dispatched([]) == [];
  }

  function Ended(line: string): string {
    line + "\r\n"
  }

  function Rejoin(lines: seq<string>): string {
    if lines == [] then "" else Ended(lines[0]) + Rejoin(lines[1..])
  }

  lemma RawLinesStep(buf: string)
    requires Cut(buf) >= 0
    ensures var (lines, rest) := RawLines(buf[Cut(buf) + 2..]);
            RawLines(buf) == ([buf[..Cut(buf)]] + lines, rest)
  {
  }

  /** The lines and the remainder are the text: nothing is lost, each line ends at the first possible place, and no
      line end is left over. */
  lemma {:induction false} RawLinesExact(buf: string)
    ensures Splits(buf, RawLines(buf).0, RawLines(buf).1)
    decreases |buf|
  {
    hide Splits;
    if Cut(buf) >= 0 {
      RawLinesExact(buf[Cut(buf) + 2..]);
      RawLinesStep(buf);
      SplitsStep(buf);
    } else {
      SplitsNone(buf);
    }
  }

  ghost predicate Splits(buf: string, lines: seq<string>, rest: string) {
    && Rejoin(lines) + rest == buf
    && Cut(rest) == -1
    && (forall i :: 0 <= i < |lines| ==> Cut(Ended(lines[i])) == |lines[i]|)
  }

  lemma SplitsNone(buf: string)
    requires Cut(buf) < 0
    ensures Splits(buf, [], buf)
  {
  }

  lemma SplitsStep(buf: string)
    requires Cut(buf) >= 0
    requires var tail := buf[Cut(buf) + 2..]; Splits(tail, RawLines(tail).0, RawLines(tail).1)
    ensures var (lines, rest) := RawLines(buf[Cut(buf) + 2..]);
            Splits(buf, [buf[..Cut(buf)]] + lines, rest)
  {
    hide Cut, RawLines, Ended;
    var c := Cut(buf);
    var (lines, rest) := RawLines(buf[c + 2..]);
    CutOfLine(buf);
    assert ([buf[..c]] + lines)[1..] == lines;
    assert Ended(buf[..c]) + Rejoin(lines) + rest == Ended(buf[..c]) + (Rejoin(lines) + rest);
  }

  /** Those three conditions leave no choice: there is one way to split a text. */
  lemma {:induction false} SplitsUnique(buf: string, lines: seq<string>, rest: string)
    requires Splits(buf, lines, rest)
    ensures RawLines(buf) == (lines, rest)
    decreases |lines|
  {
    if lines == [] {
      assert Rejoin(lines) + rest == rest;
    } else {
      SplitsTail(buf, lines, rest);
      SplitsUnique(buf[|lines[0]| + 2..], lines[1..], rest);
      assert lines == [lines[0]] + lines[1..];
    }
  }

  lemma SplitsTail(buf: string, lines: seq<string>, rest: string)
    requires Splits(buf, lines, rest) && lines != []
    ensures Cut(buf) == |lines[0]| && buf[..|lines[0]|] == lines[0] && |buf| >= |lines[0]| + 2
    ensures Splits(buf[|lines[0]| + 2..], lines[1..], rest)
    ensures var (l, r) := RawLines(buf[|lines[0]| + 2..]); RawLines(buf) == ([lines[0]] + l, r)
  {
    hide Cut, RawLines, Ended, Rejoin;
    var tail := Rejoin(lines[1..]) + rest;
    RejoinFirst(lines, rest);
    FirstLine(lines[0], tail);
    RawLinesStep(buf);
  }

  lemma RejoinFirst(lines: seq<string>, rest: string)
    requires lines != []
    ensures Rejoin(lines) + rest == Ended(lines[0]) + (Rejoin(lines[1..]) + rest)
  {
    hide Ended;
  }

  lemma FirstLine(line: string, tail: string)
    requires Cut(Ended(line)) == |line|
    ensures var buf := Ended(line) + tail;
            |buf| >= |line| + 2 && Cut(buf) == |line| && buf[..|line|] == line && buf[|line| + 2..] == tail
  {
    CutStays(Ended(line), tail);
  }

  lemma CutOfLine(buf: string)
    requires Cut(buf) >= 0
    ensures var c := Cut(buf);
            buf == Ended(buf[..c]) + buf[c + 2..] && Cut(Ended(buf[..c])) == c
  {
    var c := Cut(buf);
    var line := Ended(buf[..c]);
    assert line == buf[..c + 2] && buf == line + buf[c + 2..];
    CutIsFirst(line, c);
    CutStays(line, buf[c + 2..]);
  }

  /** Cutting a text at once, or its first part and then the remainder with the second part, is the same. */
  lemma {:induction false} RawLinesAppend(a: string, b: string)
    ensures Refines(a, b)
    decreases |a|
  {
    hide Refines;
    if Cut(a) >= 0 {
      RawLinesAppend(a[Cut(a) + 2..], b);
      RefinesStep(a, b);
    } else {
      RefinesNone(a, b);
    }
  }

  ghost predicate Refines(a: string, b: string) {
    var (l1, r1) := RawLines(a);
    var (l2, r2) := RawLines(r1 + b);
    RawLines(a + b) == (l1 + l2, r2)
  }

  lemma RefinesNone(a: string, b: string)
    requires Cut(a) < 0
    ensures Refines(a, b)
  {
    assert RawLines(a) == ([], a);
    assert [] + RawLines(a + b).0 == RawLines(a + b).0;
  }

  lemma RefinesStep(a: string, b: string)
    requires Cut(a) >= 0 && Refines(a[Cut(a) + 2..], b)
    ensures Refines(a, b)
  {
    hide Cut, RawLines;
    var c := Cut(a);
    CutStays(a, b);
    RawLinesStep(a);
    RawLinesStep(a + b);
    assert (a + b)[c + 2..] == a[c + 2..] + b && (a + b)[..c] == a[..c];
    var (l1, r1) := RawLines(a[c + 2..]);
    var l2 := RawLines(r1 + b).0;
    assert [a[..c]] + (l1 + l2) == ([a[..c]] + l1) + l2;
  }

  lemma CommandsAppend(a: string, b: string)
    ensures var (l1, r1) := Commands(a);
            var (l2, r2) := Commands(r1 + b);
            Commands(a + b) == (l1 + l2, r2)
  {
    hide RawLines;
    RawLinesAppend(a, b);
    DispatchedAppend(RawLines(a).0, RawLines(RawLines(a).1 + b).0);
  }

  function Concat(chunks: seq<string>): string {
    if chunks == [] then "" else Concat(chunks[..|chunks| - 1]) + chunks[|chunks| - 1]
  }

  /** The inner loop: take complete lines off the buffer. */
  method Drain(text: string) returns (dispatched: seq<string>, buf: string)
    ensures (dispatched, buf) == Commands(text)
  {
    hide Commands, Strip;
    dispatched, buf := [], text;
    while Cut(buf) >= 0
      invariant Commands(text).0 == dispatched + Commands(buf).0
      invariant Commands(text).1 == Commands(buf).1
      decreases |buf|
    {
      var c := Cut(buf);
      var line := Strip(buf[..c]);
      DispatchedFirst(buf);
      if line != "" {
        dispatched := dispatched + [line];
      }
      buf := buf[c + 2..];
    }
    NothingToDispatch(buf);
    assert dispatched + [] == dispatched;
  }

  lemma NothingToDispatch(buf: string)
    requires Cut(buf) < 0
    ensures Commands(buf) == ([], buf)
  {
  }

  /** However the text is divided into chunks, the lines dispatched and the buffer left are those of the text. */
  method HandleClient(chunks: seq<string>) returns (dispatched: seq<string>, buf: string)
    ensures (dispatched, buf) == Commands(Concat(chunks))
  {
    hide Commands;
    dispatched, buf := [], "";
    NothingToDispatch("");
    var i := 0;
    while i < |chunks|
      invariant 0 <= i <= |chunks|
      invariant (dispatched, buf) == Commands(Concat(chunks[..i]))
    {
      CommandsAppend(Concat(chunks[..i]), chunks[i]);
      assert chunks[..i + 1][..i] == chunks[..i];
      var lines;
      lines, buf := Drain(buf + chunks[i]);
      dispatched := dispatched + lines;
      i := i + 1;
    }
    assert chunks[..i] == chunks;
  }

  lemma DispatchedFirst(buf: string)
    requires Cut(buf) >= 0
    ensures var line := buf[..Cut(buf)];
            var tail := Commands(buf[Cut(buf) + 2..]);
            Commands(buf) == ((if Strip(line) == "" then [] else [Strip(line)]) + tail.0, tail.1)
  {
    DispatchedAppend([buf[..Cut(buf)]], RawLines(buf[Cut(buf) + 2..]).0);
  }
}
