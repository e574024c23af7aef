/** `parse_command` of `src/protocol.py`. */
module Protocol {

  import opened Common
  import opened Text

  datatype Command = Command(name: string, args: seq<string>)

  datatype ParseError = EmptyCommand | UnknownCommand(name: string) | MissingArguments

  const MIN_ARGS: map<string, nat> := map[
    "CREATE_TOPIC" := 1, "DELETE_TOPIC" := 1, "LIST_TOPICS" := 0,
    "CREATE_QUEUE" := 1, "DELETE_QUEUE" := 1, "LIST_QUEUES" := 0,
    "PUBLISH" := 2, "SEND" := 2,
    "CONSUME" := 1, "SUBSCRIBE" := 1, "UNSUBSCRIBE" := 1, "CONSUME_GROUP" := 2, "SET_OFFSET" := 2,
    "ACK" := 1, "NACK" := 1, "ACK_BATCH" := 1,
    "CREATE_GROUP" := 2, "DELETE_GROUP" := 1, "LEAVE_GROUP" := 1,
    "PING" := 0,
    "REPLAY" := 2, "REPLAY_ALL" := 2,
    "QUIT" := 0]

  predicate HasBody(name: string) {
    name == "PUBLISH" || name == "SEND"
  }

  function Parse(raw: string): Result<Command, ParseError> {
    var line := Strip(raw);
    if line == "" then Err(EmptyCommand)
    else
      var parts := Split(line);
      var name := Upper(parts[0]);
      var args := parts[1..];
      if name !in MIN_ARGS then Err(UnknownCommand(name))
      else if HasBody(name) then
        if |args| < 2 then Err(MissingArguments) else Ok(Command(name, [args[0], Join(args[1..])]))
      else if |args| < MIN_ARGS[name] then Err(MissingArguments)
      else Ok(Command(name, args))
  }

  /** Nothing of an accepted line is lost: name and arguments joined by single spaces are the stripped line, up to
      the case of the command word. */
  lemma JoinParsed(raw: string)
    requires Parse(raw).Ok?
    ensures var c := Parse(raw).value;
            var line := Strip(raw);
            && |c.name| <= |line|
            && Join([c.name] + c.args) == Upper(line[..|c.name|]) + line[|c.name|..]
  {
    hide Strip, Split, Upper, Join, MIN_ARGS;
    var line := Strip(raw);
    var parts := Split(line);
    JoinSplit(line);
    var name := Upper(parts[0]);
    var args := parts[1..];
    FirstPart(parts, line);
    assert parts == [parts[0]] + args;
    ReplaceFirst(parts[0], name, args);
    if HasBody(name) {
      JoinNested([name, args[0]], args[1..]);
      assert [name] + [args[0], Join(args[1..])] == [name, args[0]] + [Join(args[1..])];
      assert [name] + args == [name, args[0]] + args[1..];
    }
  }

  const NO_ARGUMENT: set<string> := {"LIST_TOPICS", "LIST_QUEUES", "PING", "QUIT"}

  const ONE_ARGUMENT: set<string> := {
    "CREATE_TOPIC", "DELETE_TOPIC", "CREATE_QUEUE", "DELETE_QUEUE", "CONSUME", "SUBSCRIBE", "UNSUBSCRIBE",
    "ACK", "NACK", "ACK_BATCH", "DELETE_GROUP", "LEAVE_GROUP"}

  const TWO_ARGUMENTS: set<string> := {
    "PUBLISH", "SEND", "CONSUME_GROUP", "SET_OFFSET", "CREATE_GROUP", "REPLAY", "REPLAY_ALL"}

  /** A command word, and how many arguments it needs at least. */
  predicate Needs(name: string, n: nat) {
    (name in NO_ARGUMENT && n == 0) || (name in ONE_ARGUMENT && n == 1) || (name in TWO_ARGUMENTS && n == 2)
  }

  lemma TableNeeds(name: string)
    ensures name in MIN_ARGS <==> Needs(name, 0) || Needs(name, 1) || Needs(name, 2)
    ensures name in MIN_ARGS ==> Needs(name, MIN_ARGS[name])
    ensures forall n: nat, m: nat :: Needs(name, n) && Needs(name, m) ==> n == m
    ensures HasBody(name) ==> Needs(name, 2)
  {
  }

  /** Every stripped line that is not empty is a word and space-free arguments joined by single spaces; this is the
      answer to it, in each case. */
  lemma ParseExact(raw: string, word: string, args: seq<string>)
    requires NoSpace(word) && forall i :: 0 <= i < |args| ==> NoSpace(args[i])
    requires Strip(raw) == Join([word] + args) && Strip(raw) != ""
    ensures var name := Upper(word);
            if !Needs(name, 0) && !Needs(name, 1) && !Needs(name, 2) then Parse(raw) == Err(UnknownCommand(name))
            else if exists n: nat :: Needs(name, n) && |args| < n then Parse(raw) == Err(MissingArguments)
            else if name == "PUBLISH" || name == "SEND" then
              |args| >= 2 && Parse(raw) == Ok(Command(name, [args[0], Join(args[1..])]))
            else Parse(raw) == Ok(Command(name, args))
  {
    hide Strip, Split, Upper, Join, MIN_ARGS, Needs, HasBody;
    SplitJoin([word] + args);
    ParseParts(raw, word, args);
    assert ([word] + args)[1..] == args;
    var name := Upper(word);
    TableNeeds(name);
    BodyCommands(name);
    if name in MIN_ARGS {
      TooFew(name, |args|);
    }
  }

  lemma TooFew(name: string, k: nat)
    requires name in MIN_ARGS
    ensures (exists n: nat :: Needs(name, n) && k < n) <==> k < MIN_ARGS[name]
  {
    hide MIN_ARGS, Needs;
    TableNeeds(name);
  }

  lemma BodyCommands(name: string)
    ensures HasBody(name) <==> name == "PUBLISH" || name == "SEND"
    ensures HasBody(name) ==> name in MIN_ARGS && MIN_ARGS[name] == 2
  {
  }

  lemma ParseParts(raw: string, word: string, args: seq<string>)
    requires Strip(raw) != "" && Split(Strip(raw)) == [word] + args
    ensures var name := Upper(word);
            Parse(raw) ==
            if name !in MIN_ARGS then Err(UnknownCommand(name))
            else if HasBody(name) then
              if |args| < 2 then Err(MissingArguments) else Ok(Command(name, [args[0], Join(args[1..])]))
            else if |args| < MIN_ARGS[name] then Err(MissingArguments)
            else Ok(Command(name, args))
  {
    hide Strip, Split, Upper, Join, MIN_ARGS, HasBody;
    assert ([word] + args)[1..] == args;
  }

  lemma EveryLineDivides(raw: string) returns (word: string, args: seq<string>)
    ensures NoSpace(word) && forall i :: 0 <= i < |args| ==> NoSpace(args[i])
    ensures Strip(raw) == Join([word] + args)
    ensures Strip(raw) == "" <==> Parse(raw) == Err(EmptyCommand)
  {
    hide Strip, Split, Join, Upper, MIN_ARGS;
    var parts := Split(Strip(raw));
    JoinSplit(Strip(raw));
    word, args := parts[0], parts[1..];
    assert parts == [word] + args;
  }

  lemma FirstPart(parts: seq<string>, line: string)
    requires parts != [] && Join(parts) == line
    ensures |parts[0]| <= |line| && line[..|parts[0]|] == parts[0]
  {
  }

  /** Changing the first part for one of its length changes just the front of the joined text. */
  lemma ReplaceFirst(word: string, other: string, rest: seq<string>)
    requires |word| == |other|
    ensures |Join([word] + rest)| >= |word|
    ensures Join([other] + rest) == other + Join([word] + rest)[|word|..]
  {
    assert ([word] + rest)[1..] == rest && ([other] + rest)[1..] == rest;
    if rest != [] {
      assert Join([word] + rest) == word + (" " + Join(rest));
      assert Join([other] + rest) == other + (" " + Join(rest));
    }
  }

  /** A rendered PUBLISH or SEND parses back to its target and body, every inner and leading space of the body
      kept, exactly when the target has no space and the body is not empty and does not end in whitespace. */
  lemma RenderParse(name: string, target: string, body: string)
    requires HasBody(name)
    ensures Parse(name + " " + target + " " + body) == Ok(Command(name, [target, body])) <==>
            NoSpace(target) && body != "" && !IsSpace(body[|body| - 1])
  {
    hide Strip, Split, Upper, Join, IsSpace;
    var raw := name + " " + target + " " + body;
    if NoSpace(target) && body != "" && !IsSpace(body[|body| - 1]) {
      RenderedParses(name, target, body);
    }
    if Parse(raw) == Ok(Command(name, [target, body])) {
      ParsedWasRendered(name, target, body);
    }
  }

  lemma RenderedParses(name: string, target: string, body: string)
    requires HasBody(name) && NoSpace(target) && body != "" && !IsSpace(body[|body| - 1])
    ensures Parse(name + " " + target + " " + body) == Ok(Command(name, [target, body]))
  {
    hide Split, Join;
    var raw := name + " " + target + " " + body;
    assert raw[|raw| - 1] == body[|body| - 1];
    assert !IsSpace(raw[0]);
    assert Strip(raw) == raw;
    assert raw == name + " " + (target + " " + body);
    SplitWord(name, target + " " + body);
    SplitWord(target, body);
    var parts := Split(raw);
    assert parts == [name, target] + Split(body);
    assert parts[1..][1..] == Split(body);
    JoinSplit(body);
    assert Upper(name) == name;
    assert name in MIN_ARGS;
  }

  lemma ParsedWasRendered(name: string, target: string, body: string)
    requires HasBody(name)
    requires Parse(name + " " + target + " " + body) == Ok(Command(name, [target, body]))
    ensures NoSpace(target) && body != "" && !IsSpace(body[|body| - 1])
  {
    hide Strip, Split, Join, IsSpace, MIN_ARGS;
    var raw := name + " " + target + " " + body;
    var line := Strip(raw);
    StripShortens(raw);
    var parts := Split(line);
    JoinSplit(line);
    assert NoSpace(parts[1]) && parts[1] == target;
    JoinParsed(raw);
    JoinThree(name, target, body);
    assert |line| == |raw|;
    SpaceIsSpace();
    LastChar(name + " " + target, body);
  }

  lemma LastChar(front: string, body: string)
    ensures var s := front + " " + body;
            s != "" && s[|s| - 1] == if body == "" then ' ' else body[|body| - 1]
  {
  }

  lemma SpaceIsSpace()
    ensures IsSpace(' ')
  {
  }

  lemma JoinThree(a: string, b: string, c: string)
    ensures Join([a] + [b, c]) == a + " " + b + " " + c
  {
    assert ([a] + [b, c])[1..] == [b, c] && [b, c][1..] == [c];
    assert Join([c]) == c;
    assert Join([b, c]) == b + " " + c;
    assert a + " " + (b + " " + c) == a + " " + b + " " + c;
  }
}
