/** The MPD wire protocol: command frames going out, response lines coming in. */
module MpdProtocol {
  import opened Common
  import opened Text

  datatype Framed = Frame(text: string) | Forbidden(ch: char)

  predicate IsForbidden(c: char) {
    c == '\n' || c == '\r' || c == '\0'
  }

  predicate Sendable(s: string) {
    forall i :: 0 <= i < |s| ==> !IsForbidden(s[i])
  }

  function Escaped(c: char): string {
    if c == '\\' then "\\\\" else if c == '"' then "\\\"" else [c]
  }

  function EscapeAll(arg: string): string {
    if arg == "" then "" else EscapeAll(arg[..|arg| - 1]) + Escaped(arg[|arg| - 1])
  }

  function Quoted(arg: string): string {
    "\"" + EscapeAll(arg) + "\""
  }

  function Arguments(args: seq<string>): string {
    if args == [] then "" else Arguments(args[..|args| - 1]) + " " + Quoted(args[|args| - 1])
  }

  /** The first forbidden character. */
  function FirstForbidden(s: string): (bad: Option<char>)
    ensures bad.None? <==> Sendable(s)
    ensures bad.Some? ==> exists i: nat :: i < |s| && s[i] == bad.value && IsForbidden(s[i]) && Sendable(s[..i])
  {
    if s == "" then None
    else
      var front := s[..|s| - 1];
      var earlier := FirstForbidden(front);
      if earlier.Some? then
        assert forall i: nat :: i < |front| ==> front[..i] == s[..i];
        earlier
      else if IsForbidden(s[|s| - 1]) then Some(s[|s| - 1]) else None
  }

  /** What a command is refused for: its own first forbidden character, or else its arguments'. */
  function Refusal(command: string, args: seq<string>): Option<char> {
    if args == [] then FirstForbidden(command)
    else
      var earlier := Refusal(command, args[..|args| - 1]);
      if earlier.Some? then earlier else FirstForbidden(args[|args| - 1])
  }

  lemma Regroup(a: string, b: string, c: string)
    ensures (a + b) + c == a + (b + c)
  {
  }

  method CheckText(s: string) returns (bad: Option<char>)
    ensures bad == FirstForbidden(s)
  {
    for i := 0 to |s|
      invariant FirstForbidden(s[..i]).None?
    {
      assert s[..i + 1][..i] == s[..i];
      if s[i] == '\n' || s[i] == '\r' || s[i] == '\0' {
        FirstStaysFirst(s, i);
        return Some(s[i]);
      }
    }
    assert s[..|s|] == s;
    bad := None;
  }

  lemma {:induction false} FirstStaysFirst(s: string, i: nat)
    requires i < |s| && IsForbidden(s[i]) && Sendable(s[..i])
    ensures FirstForbidden(s) == Some(s[i])
  {
    if i < |s| - 1 {
      var front := s[..|s| - 1];
      assert front[..i] == s[..i];
      FirstStaysFirst(front, i);
    }
  }

  method EncodeArgument(arg: string, out: string) returns (r: Framed)
    ensures r == match FirstForbidden(arg) case Some(ch) => Forbidden(ch) case None => Frame(out + Quoted(arg))
  {
    var bad := CheckText(arg);
    if bad.Some? {
      return Forbidden(bad.value);
    }
    var text := out + "\"";
    for i := 0 to |arg|
      invariant text == (out + "\"") + EscapeAll(arg[..i])
    {
      assert arg[..i + 1][..i] == arg[..i];
      Regroup(out + "\"", EscapeAll(arg[..i]), Escaped(arg[i]));
      if arg[i] == '\\' {
        text := text + "\\\\";
      } else if arg[i] == '"' {
        text := text + "\\\"";
      } else {
        text := text + [arg[i]];
      }
    }
    assert arg[..|arg|] == arg;
    Regroup(out, "\"", EscapeAll(arg));
    Regroup(out, "\"" + EscapeAll(arg), "\"");
    r := Frame(text + "\"");
  }

  method SerialiseCommand(command: string, args: seq<string>) returns (r: Framed)
    ensures r == match Refusal(command, args) case Some(ch) => Forbidden(ch)
                                              case None => Frame(FrameText(command, args))
  {
    var bad := CheckText(command);
    if bad.Some? {
      RefusedOnce(command, args, 0);
      return Forbidden(bad.value);
    }
    var out := command;
    for a := 0 to |args|
      invariant out == command + Arguments(args[..a])
      invariant Refusal(command, args[..a]).None?
    {
      assert args[..a + 1][..a] == args[..a];
      var next := EncodeArgument(args[a], out + " ");
      if next.Forbidden? {
        RefusedOnce(command, args, a + 1);
        return next;
      }
      AppendArgument(command, Arguments(args[..a]), Quoted(args[a]));
      out := next.text;
    }
    assert args[..|args|] == args;
    r := Frame(out + "\n");
  }

  lemma AppendArgument(command: string, before: string, quoted: string)
    ensures ((command + before) + " ") + quoted == command + ((before + " ") + quoted)
  {
    Regroup(command, before, " ");
    Regroup(command, before + " ", quoted);
  }

  lemma {:induction false} RefusedOnce(command: string, args: seq<string>, a: nat)
    requires a <= |args| && Refusal(command, args[..a]).Some?
    ensures Refusal(command, args) == Refusal(command, args[..a])
  {
    if a == |args| {
      assert args[..a] == args;
    } else {
      assert args[..|args| - 1][..a] == args[..a];
      RefusedOnce(command, args[..|args| - 1], a);
    }
  }

  function FrameText(command: string, args: seq<string>): string {
    (command + Arguments(args)) + "\n"
  }

  // ---------------------------------------------------------------------------
  // Reading arguments back
  // ---------------------------------------------------------------------------

  /** Reads a double-quoted argument after its opening quote: the argument, and what follows it. */
  function ReadQuoted(s: string): (r: Option<(string, string)>)
    ensures r.Some? ==> |r.value.1| < |s|
  {
    if s == "" then None
    else if s[0] == '"' then Some(("", s[1..]))
    else if s[0] == '\\' then
      if |s| < 2 then None
      else match ReadQuoted(s[2..]) case None => None case Some((arg, rest)) => Some(([s[1]] + arg, rest))
    else match ReadQuoted(s[1..]) case None => None case Some((arg, rest)) => Some(([s[0]] + arg, rest))
  }

  /** Reads quoted arguments, each behind a space, up to the end of the line. */
  function ReadArguments(s: string): Option<seq<string>>
    decreases |s|
  {
    if s == "\n" then Some([])
    else if |s| >= 2 && s[0] == ' ' && s[1] == '"' then
      match ReadQuoted(s[2..])
      case None => None
      case Some((arg, rest)) =>
        match ReadArguments(rest) case None => None case Some(args) => Some([arg] + args)
    else None
  }

  lemma EscapeSnoc(front: string, c: char)
    ensures EscapeAll(front + [c]) == EscapeAll(front) + Escaped(c)
  {
    assert (front + [c])[..|front|] == front;
  }

  lemma EscapeConsStep(c: char, front: string, last: char)
    requires EscapeAll([c] + front) == Escaped(c) + EscapeAll(front)
    ensures EscapeAll([c] + (front + [last])) == Escaped(c) + EscapeAll(front + [last])
  {
    EscapeSnoc([c] + front, last);
    EscapeSnoc(front, last);
    assert [c] + (front + [last]) == ([c] + front) + [last];
    Regroup(Escaped(c), EscapeAll(front), Escaped(last));
  }

  lemma EscapeConsEmpty(c: char)
    ensures EscapeAll([c] + "") == Escaped(c) + EscapeAll("")
  {
    assert [c] + "" == [c] && [c][..0] == "";
  }

  lemma {:induction false} EscapeCons(c: char, rest: string)
    ensures EscapeAll([c] + rest) == Escaped(c) + EscapeAll(rest)
    decreases |rest|
  {
    if rest == "" {
      EscapeConsEmpty(c);
    } else {
      EscapeCons(c, rest[..|rest| - 1]);
      EscapeConsStep(c, rest[..|rest| - 1], rest[|rest| - 1]);
      assert rest == rest[..|rest| - 1] + [rest[|rest| - 1]];
    }
  }

  lemma EscapeAllHead(arg: string)
    requires arg != ""
    ensures EscapeAll(arg) == Escaped(arg[0]) + EscapeAll(arg[1..])
  {
    EscapeCons(arg[0], arg[1..]);
    assert [arg[0]] + arg[1..] == arg;
  }

  lemma {:induction false} QuotedReadsBack(arg: string, rest: string)
    ensures ReadQuoted(EscapeAll(arg) + "\"" + rest) == Some((arg, rest))
  {
    if arg == "" {
      assert EscapeAll(arg) + "\"" + rest == "\"" + rest;
      assert ("\"" + rest)[1..] == rest;
    } else {
      EscapeAllHead(arg);
      QuotedReadsBack(arg[1..], rest);
      var tail := EscapeAll(arg[1..]) + "\"" + rest;
      var s := EscapeAll(arg) + "\"" + rest;
      assert s == Escaped(arg[0]) + tail;
      assert s[|Escaped(arg[0])|..] == tail;
      assert [arg[0]] + arg[1..] == arg;
    }
  }

  lemma ArgumentsSnoc(front: seq<string>, arg: string)
    ensures Arguments(front + [arg]) == Arguments(front) + " " + Quoted(arg)
  {
    assert (front + [arg])[..|front|] == front;
  }

  lemma ArgumentsConsStep(arg: string, front: seq<string>, last: string)
    requires Arguments([arg] + front) == " " + Quoted(arg) + Arguments(front)
    ensures Arguments([arg] + (front + [last])) == " " + Quoted(arg) + Arguments(front + [last])
  {
    ArgumentsSnoc([arg] + front, last);
    ArgumentsSnoc(front, last);
    assert [arg] + (front + [last]) == ([arg] + front) + [last];
    AppendArgument(" " + Quoted(arg), Arguments(front), Quoted(last));
  }

  lemma ArgumentsConsEmpty(arg: string)
    ensures Arguments([arg] + []) == " " + Quoted(arg) + Arguments([])
  {
    assert [arg] + [] == [arg] && [arg][..0] == [];
  }

  lemma {:induction false} ArgumentsCons(arg: string, rest: seq<string>)
    ensures Arguments([arg] + rest) == " " + Quoted(arg) + Arguments(rest)
    decreases |rest|
  {
    if rest == [] {
      ArgumentsConsEmpty(arg);
    } else {
      ArgumentsCons(arg, rest[..|rest| - 1]);
      ArgumentsConsStep(arg, rest[..|rest| - 1], rest[|rest| - 1]);
      assert rest == rest[..|rest| - 1] + [rest[|rest| - 1]];
    }
  }

  lemma ArgumentsHead(args: seq<string>)
    requires args != []
    ensures Arguments(args) == " " + Quoted(args[0]) + Arguments(args[1..])
  {
    ArgumentsCons(args[0], args[1..]);
    assert [args[0]] + args[1..] == args;
  }

  /** A reader of quoted arguments gets back exactly the arguments that were sent. */
  lemma {:induction false} ArgumentsReadBack(args: seq<string>)
    ensures ReadArguments(Arguments(args) + "\n") == Some(args)
  {
    if args != [] {
      ArgumentsReadBack(args[1..]);
      var rest := Arguments(args[1..]) + "\n";
      var s := Arguments(args) + "\n";
      ArgumentsShape(args);
      assert s[2..] == EscapeAll(args[0]) + "\"" + rest;
      QuotedReadsBack(args[0], rest);
      assert [args[0]] + args[1..] == args;
    } else {
      assert Arguments(args) + "\n" == "\n";
    }
  }

  lemma ArgumentsShape(args: seq<string>)
    requires args != []
    ensures Arguments(args) + "\n" == " \"" + (EscapeAll(args[0]) + "\"" + (Arguments(args[1..]) + "\n"))
  {
    ArgumentsHead(args);
    Reassociate(" ", "\"", EscapeAll(args[0]), Arguments(args[1..]), "\n");
    assert " " + "\"" == " \"";
  }

  lemma Reassociate(space: string, quote: string, escaped: string, rest: string, end: string)
    ensures ((space + ((quote + escaped) + quote)) + rest) + end == (space + quote) + ((escaped + quote) + (rest + end))
  {
    Regroup(quote, escaped, quote);
    Regroup(space, quote, escaped + quote);
    Regroup((space + quote) + (escaped + quote), rest, end);
    Regroup(space + quote, escaped + quote, rest + end);
  }

  /** `i` is where `c` first stands. */
  ghost predicate FirstAt(s: string, c: char, i: nat) {
    i < |s| && s[i] == c && forall j :: 0 <= j < i ==> s[j] != c
  }

  lemma FirstQuote(command: string, args: seq<string>)
    requires '"' !in command
    ensures args == [] ==> '"' !in FrameText(command, args)
    ensures args != [] ==> FirstAt(FrameText(command, args), '"', |command| + 1)
  {
    if args != [] {
      ArgumentsShape(args);
      Regroup(command, Arguments(args), "\n");
      var tail := Arguments(args) + "\n";
      assert tail[0] == ' ' && tail[1] == '"';
    }
  }

  lemma BareFrame(command: string)
    ensures FrameText(command, []) == command + "\n"
    ensures (command + "\n")[..|command|] == command
  {
    assert command + "" == command;
  }

  /** Frames of quote-free commands are never confused: command and arguments are recovered. */
  lemma FramesAreUnambiguous(c1: string, a1: seq<string>, c2: string, a2: seq<string>)
    requires '"' !in c1 && '"' !in c2
    requires FrameText(c1, a1) == FrameText(c2, a2)
    ensures c1 == c2 && a1 == a2
  {
    var f := FrameText(c1, a1);
    FirstQuote(c1, a1);
    FirstQuote(c2, a2);
    if a1 == [] || a2 == [] {
      BareFrame(c1);
      BareFrame(c2);
    } else {
      assert |c1| == |c2|;
      assert f[..|c1|] == c1 && f[..|c2|] == c2;
      assert f[|c1|..] == Arguments(a1) + "\n" && f[|c2|..] == Arguments(a2) + "\n";
      ArgumentsReadBack(a1);
      ArgumentsReadBack(a2);
    }
  }

  /** A command that contains a quoted word is one frame with the command and argument split apart. */
  lemma QuoteInCommandIsAmbiguous(command: string, arg: string)
    ensures FrameText(command + " " + Quoted(arg), []) == FrameText(command, [arg])
  {
    assert [arg][..0] == [];
    assert Arguments([arg]) == "" + " " + Quoted(arg);
    Regroup(command, " ", Quoted(arg));
  }

  lemma SendableParts(a: string, b: string)
    ensures Sendable(a + b) <==> Sendable(a) && Sendable(b)
  {
    assert forall i :: 0 <= i < |a| ==> a[i] == (a + b)[i];
    assert forall i :: 0 <= i < |b| ==> b[i] == (a + b)[|a| + i];
  }

  lemma {:induction false} SendableArguments(args: seq<string>)
    requires forall a :: 0 <= a < |args| ==> Sendable(args[a])
    ensures Sendable(Arguments(args))
  {
    if args != [] {
      SendableArguments(args[..|args| - 1]);
      SendableEscape(args[|args| - 1]);
    }
  }

  lemma {:induction false} SendableEscape(arg: string)
    requires Sendable(arg)
    ensures Sendable(EscapeAll(arg))
  {
    if arg != "" { SendableEscape(arg[..|arg| - 1]); }
  }

  /** The command and its arguments are sent rather than refused. */
  predicate Accepted(command: string, args: seq<string>) {
    Refusal(command, args).None?
  }

  lemma {:induction false} AcceptedIff(command: string, args: seq<string>)
    ensures Accepted(command, args) <==> Sendable(command) && forall a :: 0 <= a < |args| ==> Sendable(args[a])
  {
    if args != [] {
      var front := args[..|args| - 1];
      AcceptedIff(command, front);
      assert forall a :: 0 <= a < |front| ==> front[a] == args[a];
    }
  }

  lemma {:induction false} SendableUnescape(arg: string)
    requires Sendable(EscapeAll(arg))
    ensures Sendable(arg)
  {
    if arg != "" {
      SendableParts(EscapeAll(arg[..|arg| - 1]), Escaped(arg[|arg| - 1]));
      SendableUnescape(arg[..|arg| - 1]);
      assert arg == arg[..|arg| - 1] + [arg[|arg| - 1]];
    }
  }

  ghost predicate Another(command: string, args: seq<string>, c: string, a: seq<string>) {
    (c != command || a != args) && Accepted(c, a) && FrameText(c, a) == FrameText(command, args)
  }

  /** The command ends in a space and a quoted word. */
  ghost predicate EndsInWord(command: string, head: string, word: string) {
    command == head + (" " + Quoted(word))
  }

  lemma ArgumentsLast(command: string, args: seq<string>)
    requires args != []
    ensures var last := args[|args| - 1];
            command + Arguments(args) == (command + Arguments(args[..|args| - 1])) + (" " + Quoted(last))
  {
    var before, last := Arguments(args[..|args| - 1]), args[|args| - 1];
    Regroup(before, " ", Quoted(last));
    Regroup(command, before, " " + Quoted(last));
  }

  lemma SwallowedArguments(command: string, args: seq<string>)
    requires args != [] && Accepted(command, args)
    ensures Another(command, args, command + Arguments(args), [])
  {
    AcceptedIff(command, args);
    SendableArguments(args);
    AcceptedIff(command + Arguments(args), []);
    assert (command + Arguments(args)) + "" == command + Arguments(args);
  }

  lemma SplitOffWord(command: string, head: string, word: string)
    requires Accepted(command, []) && EndsInWord(command, head, word)
    ensures Another(command, [], head, [word])
  {
    AcceptedIff(command, []);
    SendableParts(head, " " + Quoted(word));
    SendableParts(" ", Quoted(word));
    SendableParts("\"" + EscapeAll(word), "\"");
    SendableParts("\"", EscapeAll(word));
    SendableUnescape(word);
    AcceptedIff(head, [word]);
    QuoteInCommandIsAmbiguous(head, word);
    Regroup(head, " ", Quoted(word));
  }

  lemma OtherEndsInWord(command: string, c: string, a: seq<string>)
    requires Another(command, [], c, a)
    ensures a != [] && EndsInWord(command, c + Arguments(a[..|a| - 1]), a[|a| - 1])
  {
    BareFrame(command);
    var text := c + Arguments(a);
    assert (text + "\n")[..|text|] == text;
    assert text == command;
    assert a == [] ==> text == c;
    if a != [] { ArgumentsLast(c, a); }
  }

  /** Another sending has the same frame exactly when there are arguments or the command ends in a quoted word. */
  lemma FrameIsSharedIff(command: string, args: seq<string>)
    requires Accepted(command, args)
    ensures (exists c, a :: Another(command, args, c, a)) <==>
            args != [] || exists head, word :: EndsInWord(command, head, word)
  {
    if args != [] {
      SwallowedArguments(command, args);
    } else {
      if head, word :| EndsInWord(command, head, word) { SplitOffWord(command, head, word); }
      if c, a :| Another(command, args, c, a) { OtherEndsInWord(command, c, a); }
    }
  }

  /** A frame is one line: its only line break is its last character. */
  lemma FrameIsOneLine(command: string, args: seq<string>)
    requires Sendable(command) && forall a :: 0 <= a < |args| ==> Sendable(args[a])
    ensures var f := FrameText(command, args);
            forall i :: 0 <= i < |f| ==> (f[i] == '\n' <==> i == |f| - 1)
  {
    SendableArguments(args);
  }

  // ---------------------------------------------------------------------------
  // Response lines
  // ---------------------------------------------------------------------------

  datatype Line =
    | OkLine
    | ListOk
    | Ack(code: nat, listPosition: nat, command: string, message: string)
    | Field(key: string, value: string)
    | MalformedAck
    | MalformedField

  const ACK_START := "ACK ["

  /** Code and list position. */
  function ReadNumbers(numbers: string): Option<(nat, nat)> {
    match SplitOnce(numbers, "@")
    case None => None
    case Some((codeText, posText)) =>
      if ParseU32(codeText).None? || ParseU32(posText).None? then None
      else Some((ParseU32(codeText).value, ParseU32(posText).value))
  }

  /** Command and message, which one space may part. */
  function ReadCommand(rest: string): Option<(string, string)> {
    if rest == "" || rest[0] != '{' then None
    else
      match SplitOnce(rest[1..], "}")
      case None => None
      case Some((command, after)) =>
        Some((command, if after != "" && after[0] == ' ' then after[1..] else after))
  }

  function ParseAck(line: string): Line
    requires ACK_START <= line
  {
    match SplitOnce(line[|ACK_START|..], "] ")
    case None => MalformedAck
    case Some((numbers, rest)) =>
      var read, told := ReadNumbers(numbers), ReadCommand(rest);
      if read.None? || told.None? then MalformedAck
      else Ack(read.value.0, read.value.1, told.value.0, told.value.1)
  }

  function ParseField(line: string): Line {
    match SplitOnce(line, ": ")
    case None => MalformedField
    case Some((key, value)) => if key == "" then MalformedField else Field(key, value)
  }

  function ClassifyLine(line: string): Line {
    if line == "OK" then OkLine
    else if line == "list_OK" then ListOk
    else if ACK_START <= line then ParseAck(line)
    else ParseField(line)
  }

  /** What ends a response or a part of one, and what opens an error line. */
  lemma LineKindIff(line: string)
    ensures ClassifyLine(line) == OkLine <==> line == "OK"
    ensures ClassifyLine(line) == ListOk <==> line == "list_OK"
    ensures ClassifyLine(line).Ack? || ClassifyLine(line).MalformedAck? <==> "ACK [" <= line
  {
    if "ACK [" <= line { assert line[0] == 'A'; }
  }

  predicate Contains(s: string, pat: string) {
    Find(s, pat).Some?
  }

  /** Splitting where one part ends recovers both parts when the mark is not found earlier. */
  lemma SplitsBetween(head: string, pat: string, tail: string)
    requires pat != "" && forall j: nat :: j < |head| ==> !FoundAt(head + pat + tail, pat, j)
    ensures SplitOnce(head + pat + tail, pat) == Some((head, tail))
  {
    var s := head + pat + tail;
    assert s[|head|..|head| + |pat|] == pat;
    FindIs(s, pat, |head|);
    assert s[..|head|] == head && s[|head| + |pat|..] == tail;
  }

  lemma CharNotBefore(head: string, c: char, tail: string)
    requires c !in head
    ensures forall j: nat :: j < |head| ==> !FoundAt(head + [c] + tail, [c], j)
  {
    forall j: nat | j < |head| ensures !FoundAt(head + [c] + tail, [c], j) {
      var s := head + [c] + tail;
      assert s[j..j + 1][0] == head[j];
    }
  }

  /** The line MPD sends for a failed command. */
  function AckLine(code: nat, position: nat, command: string, message: string): string {
    "ACK [" + (Decimal(code) + "@" + Decimal(position) + "] " + ("{" + (command + "}" + (" " + message))))
  }

  /** A key and value line reads back as sent exactly under these conditions on its key. */
  lemma FieldRoundTripIff(key: string, value: string)
    ensures ClassifyLine(key + ": " + value) == Field(key, value)
            <==> key != "" && !Contains(key, ": ") && !("ACK [" <= key)
  {
    var line := key + ": " + value;
    assert line[|key|] == ':' && line[|key| + 1] == ' ';
    assert line != "OK" && line != "list_OK" by {
      if |key| == 0 { assert line[0] == ':'; }
    }
    AckStartIsInKey(key, value);
    if !(ACK_START <= key) {
      if Contains(key, ": ") {
        var i := Find(key, ": ").value;
        assert line[i..i + 2] == key[i..i + 2];
        assert FoundAt(line, ": ", i);
      } else {
        forall j: nat | j < |key| ensures !FoundAt(line, ": ", j) {
          if j + 2 <= |key| { assert line[j..j + 2] == key[j..j + 2]; assert !FoundAt(key, ": ", j); }
          else { assert line[j..j + 2][1] == line[j + 1] == ':'; }
        }
        SplitsBetween(key, ": ", value);
      }
    }
  }

  lemma AckStartIsInKey(key: string, value: string)
    ensures ACK_START <= key + ": " + value <==> ACK_START <= key
  {
    var line := key + ": " + value;
    if |key| < 5 {
      assert line[|key|] == ':' && line[|key| + 1] == ' ';
      assert ACK_START[0] == 'A' && ACK_START[1] == 'C' && ACK_START[2] == 'K' && ACK_START[3] == ' '
          && ACK_START[4] == '[';
      assert ACK_START[|key|] != line[|key|];
    } else {
      assert line[..5] == key[..5];
    }
  }

  // ---------------------------------------------------------------------------
  // Which error lines are understood
  // ---------------------------------------------------------------------------

  predicate Tells(after: string, message: string) {
    after == " " + message || (after == message && (after == "" || after[0] != ' '))
  }

  lemma NumberChars(s: string, i: nat)
    requires ParseU32(s).Some? && i < |s|
    ensures IsDigit(s[i]) || s[i] == '+'
  {
    var digits := if |s| > 1 && s[0] == '+' then s[1..] else s;
    if i > 0 || digits == s { assert digits[if digits == s then i else i - 1] == s[i]; }
  }

  lemma NumberIsFree(s: string, c: char)
    requires ParseU32(s).Some? && !IsDigit(c) && c != '+'
    ensures c !in s
  {
    forall i: nat | i < |s| ensures s[i] != c { NumberChars(s, i); }
  }

  lemma NotFoundBefore(numbers: string, rest: string)
    requires ']' !in numbers
    ensures forall j: nat :: j < |numbers| ==> !FoundAt(numbers + "] " + rest, "] ", j)
  {
    forall j: nat | j < |numbers| ensures !FoundAt(numbers + "] " + rest, "] ", j) {
      var s := numbers + "] " + rest;
      assert s[j] == numbers[j] && (j + 2 <= |s| ==> s[j..j + 2][0] == s[j]);
    }
  }

  lemma SplitGivesBack(s: string, pat: string, head: string, tail: string)
    requires SplitOnce(s, pat) == Some((head, tail))
    ensures s == head + pat + tail && Find(s, pat) == Some(|head|)
  {
    var i := Find(s, pat).value;
    assert s == s[..i] + s[i..i + |pat|] + s[i + |pat|..];
  }

  lemma NotInHead(s: string, c: char, head: string, tail: string)
    requires SplitOnce(s, [c]) == Some((head, tail))
    ensures c !in head
  {
    SplitGivesBack(s, [c], head, tail);
    if c in head {
      var i :| 0 <= i < |head| && head[i] == c;
      assert s[i..i + 1] == [c];
      assert FoundAt(s, [c], i);
    }
  }

  ghost predicate AreNumbers(numbers: string, code: nat, position: nat) {
    exists codeText, posText ::
      numbers == codeText + "@" + posText && ParseU32(codeText) == Some(code) && ParseU32(posText) == Some(position)
  }

  lemma NumbersReadIff(numbers: string, code: nat, position: nat)
    ensures ReadNumbers(numbers) == Some((code, position)) <==> AreNumbers(numbers, code, position)
  {
    if ReadNumbers(numbers) == Some((code, position)) {
      var (codeText, posText) := SplitOnce(numbers, "@").value;
      SplitGivesBack(numbers, "@", codeText, posText);
    }
    if codeText, posText :|
      numbers == codeText + "@" + posText && ParseU32(codeText) == Some(code) && ParseU32(posText) == Some(position)
    {
      NumberIsFree(codeText, '@');
      CharNotBefore(codeText, '@', posText);
      SplitsBetween(codeText, "@", posText);
    }
  }

  ghost predicate IsCommand(rest: string, command: string, message: string) {
    exists after :: rest == "{" + (command + "}" + after) && '}' !in command && Tells(after, message)
  }

  lemma MessageIff(after: string, message: string)
    ensures Tells(after, message) <==> message == if after != "" && after[0] == ' ' then after[1..] else after
  {
    if after != "" && after[0] == ' ' { assert after == " " + after[1..]; }
    if after == " " + message { assert after[1..] == message; }
  }

  lemma CommandReadIff(rest: string, command: string, message: string)
    ensures ReadCommand(rest) == Some((command, message)) <==> IsCommand(rest, command, message)
  {
    if ReadCommand(rest) == Some((command, message)) {
      var after := SplitOnce(rest[1..], "}").value.1;
      SplitGivesBack(rest[1..], "}", command, after);
      NotInHead(rest[1..], '}', command, after);
      MessageIff(after, message);
      assert rest == "{" + rest[1..];
    }
    if after :| rest == "{" + (command + "}" + after) && '}' !in command && Tells(after, message) {
      assert rest[1..] == command + "}" + after;
      CharNotBefore(command, '}', after);
      SplitsBetween(command, "}", after);
      MessageIff(after, message);
    }
  }

  ghost predicate IsErrorLine(line: string, code: nat, position: nat, command: string, message: string) {
    exists numbers, rest ::
      && line == "ACK [" + (numbers + "] " + rest)
      && AreNumbers(numbers, code, position) && IsCommand(rest, command, message)
  }

  lemma NumbersAreFree(numbers: string, code: nat, position: nat)
    requires AreNumbers(numbers, code, position)
    ensures ']' !in numbers
  {
    var codeText, posText :|
      numbers == codeText + "@" + posText && ParseU32(codeText) == Some(code) && ParseU32(posText) == Some(position);
    NumberIsFree(codeText, ']');
    NumberIsFree(posText, ']');
  }

  lemma BehindStart(body: string)
    ensures ACK_START <= "ACK [" + body && ("ACK [" + body)[|ACK_START|..] == body
  {
  }

  /** An error line is understood exactly when it has this form, and what is read is what stands in it. */
  lemma AckReadIff(line: string, code: nat, position: nat, command: string, message: string)
    ensures ClassifyLine(line) == Ack(code, position, command, message)
            <==> IsErrorLine(line, code, position, command, message)
  {
    LineKindIff(line);
    if ClassifyLine(line) == Ack(code, position, command, message) {
      AckIsErrorLine(line, code, position, command, message);
    }
    if numbers, rest :| line == "ACK [" + (numbers + "] " + rest) && AreNumbers(numbers, code, position)
                        && IsCommand(rest, command, message) {
      BehindStart(numbers + "] " + rest);
      NumbersAreFree(numbers, code, position);
      NotFoundBefore(numbers, rest);
      SplitsBetween(numbers, "] ", rest);
      NumbersReadIff(numbers, code, position);
      CommandReadIff(rest, command, message);
    }
  }

  lemma AckIsErrorLine(line: string, code: nat, position: nat, command: string, message: string)
    requires ACK_START <= line && ParseAck(line) == Ack(code, position, command, message)
    ensures IsErrorLine(line, code, position, command, message)
  {
    var (numbers, rest) := SplitOnce(line[|ACK_START|..], "] ").value;
    SplitGivesBack(line[|ACK_START|..], "] ", numbers, rest);
    NumbersReadIff(numbers, code, position);
    CommandReadIff(rest, command, message);
    assert line == "ACK [" + line[|ACK_START|..];
  }

  lemma SentIsErrorLine(code: nat, position: nat, command: string, message: string)
    requires code < 0x1_0000_0000 && position < 0x1_0000_0000 && '}' !in command
    ensures IsErrorLine(AckLine(code, position, command, message), code, position, command, message)
  {
    var numbers, rest := Decimal(code) + "@" + Decimal(position), "{" + (command + "}" + (" " + message));
    DecimalParses(code);
    DecimalParses(position);
    assert AreNumbers(numbers, code, position);
    assert Tells(" " + message, message);
    assert IsCommand(rest, command, message);
    assert AckLine(code, position, command, message) == "ACK [" + (numbers + "] " + rest);
  }

  /** An error line reads back as sent, whatever its message, exactly when its command has no brace. */
  lemma AckRoundTripIff(code: nat, position: nat, command: string, message: string)
    requires code < 0x1_0000_0000 && position < 0x1_0000_0000
    ensures ClassifyLine(AckLine(code, position, command, message)) == Ack(code, position, command, message)
            <==> '}' !in command
  {
    AckReadIff(AckLine(code, position, command, message), code, position, command, message);
    if '}' !in command { SentIsErrorLine(code, position, command, message); }
  }
}
