/** The command and response protocol (crates/app-core/src/ipc.rs). */
module Ipc {
  import opened Wrappers
  import opened Text
  import opened DurationText

  const MAX_FRAME_BYTES: nat := 4_096

  datatype IpcCommand =
    | Start(duration: Option<Duration>, keepDisplayAwake: bool)
    | Stop
    | Toggle
    | Status
    | Quit

  // ----- Commands -----

  /** The wire form; `as_secs` drops the nanoseconds. */
  function Serialized(command: IpcCommand): string {
    match command
    case Start(duration, keepDisplayAwake) =>
      "START"
      + (if duration.Some? then " " + Decimal(duration.value.secs) + "s" else " indefinite")
      + (if keepDisplayAwake then " display" else "")
      + "\n"
    case Stop => "STOP\n"
    case Toggle => "TOGGLE\n"
    case Status => "STATUS\n"
    case Quit => "QUIT\n"
  }

  /** The grammar of command lines, as words: keywords in any case; a duration is what the
      duration parser accepts, a bare number meaning minutes. */
  ghost predicate Denotes(words: seq<string>, command: IpcCommand) {
    match command
    case Stop => |words| == 1 && Upper(words[0]) == "STOP"
    case Toggle => |words| == 1 && Upper(words[0]) == "TOGGLE"
    case Status => |words| == 1 && Upper(words[0]) == "STATUS"
    case Quit => |words| == 1 && Upper(words[0]) == "QUIT"
    case Start(None, false) =>
      && 1 <= |words| <= 2 && Upper(words[0]) == "START"
      && (|words| == 2 ==> EqIgnoreCase(words[1], "indefinite"))
    case Start(None, true) =>
      && 2 <= |words| <= 3 && Upper(words[0]) == "START"
      && EqIgnoreCase(words[|words| - 1], "display")
      && (|words| == 3 ==> EqIgnoreCase(words[1], "indefinite"))
    case Start(Some(d), keepDisplayAwake) =>
      && |words| == (if keepDisplayAwake then 3 else 2) && Upper(words[0]) == "START"
      && !EqIgnoreCase(words[1], "display") && !EqIgnoreCase(words[1], "indefinite")
      && ParseDurationSpec(words[1]) == Some(d)
      && (keepDisplayAwake ==> EqIgnoreCase(words[2], "display"))
  }

  /** No line denotes two commands. */
  lemma DenotesUnique(words: seq<string>, a: IpcCommand, b: IpcCommand)
    requires Denotes(words, a) && Denotes(words, b)
    ensures a == b
  {
    hide Upper, ParseDurationSpec;
    assert Upper("display") != Upper("indefinite") by { assert Upper("display")[0] != Upper("indefinite")[0]; }
  }

  /** The parser accepts exactly the lines of the grammar. */
  method Parse(line: string) returns (r: Option<IpcCommand>)
    ensures r.Some? ==> Denotes(Words(line), r.value)
    ensures r.None? ==> forall command :: !Denotes(Words(line), command)
  {
    hide Words, Trim, ParseDurationSpec;
    var trimmed := Trim(line);
    WordsOfTrimmed(line);
    if trimmed == [] {
      WordsOfBlank(trimmed);
      return None;
    }
    ghost var words := Words(trimmed);
    var parts := new WordIterator(trimmed);
    var action := parts.Next();
    if action == None {
      return None;
    }
    var keyword := Upper(action.value);
    if keyword == "STOP" || keyword == "TOGGLE" || keyword == "STATUS" || keyword == "QUIT" {
      var extra := parts.Next();
      if extra.Some? {
        return None;
      }
      return Some(if keyword == "STOP" then IpcCommand.Stop else if keyword == "TOGGLE" then Toggle
                  else if keyword == "STATUS" then IpcCommand.Status else Quit);
    }
    if keyword != "START" {
      return None;
    }
    var duration: Option<Duration>, next: Option<string> := None, None;
    var tok := parts.Next();
    if tok.Some? {
      if EqIgnoreCase(tok.value, "display") {
        var extra := parts.Next();
        return if extra.None? then Some(Start(None, true)) else None;
      } else if EqIgnoreCase(tok.value, "indefinite") {
        next := parts.Next();
      } else {
        duration := ParseDurationSpec(tok.value);
        if duration.None? {
          return None;
        }
        next := parts.Next();
      }
    }
    if next.None? {
      return Some(Start(duration, false));
    }
    if !EqIgnoreCase(next.value, "display") {
      return None;
    }
    var extra := parts.Next();
    if extra.Some? {
      return None;
    }
    return Some(Start(duration, true));
  }

  /** A command the wire can carry: a finite start lasts a whole number of seconds from 1 to
      365 days. Exactly these survive (`CommandRoundTrip`). */
  predicate Transmissible(command: IpcCommand) {
    command.Start? && command.duration.Some? ==>
      command.duration.value.nanos == 0 && InRange(command.duration.value.secs)
  }

  lemma DecimalWord(n: nat)
    ensures IsWord(Decimal(n) + "s")
    ensures !EqIgnoreCase(Decimal(n) + "s", "display") && !EqIgnoreCase(Decimal(n) + "s", "indefinite")
  {
    hide Decimal, Value;
    var w := Decimal(n) + "s";
    forall i | 0 <= i < |w| ensures !IsWhitespace(w[i]) {
      NotWhitespace(w[i]);
    }
    assert IsDigit(w[0]) && Upper(w)[0] == w[0];
    assert Upper("display")[0] == 'D' && Upper("indefinite")[0] == 'I';
  }

  lemma DecimalSpec(n: nat)
    ensures ParseDurationSpec(Decimal(n) + "s") ==
            if InRange(n) then Some(RawDuration.Duration(n, 0)) else None
  {
    hide Decimal, Value, Trim, IsWhitespace;
    var w := Decimal(n) + "s";
    DecimalWord(n);
    assert [] + w + [] == w;
    TrimUnique([], w, []);
    assert w[..|w| - 1] == Decimal(n);
  }

  /** The words of a serialized command. */
  function WireWords(command: IpcCommand): seq<string> {
    match command
    case Start(duration, keepDisplayAwake) =>
      ["START", if duration.Some? then Decimal(duration.value.secs) + "s" else "indefinite"]
      + (if keepDisplayAwake then ["display"] else [])
    case Stop => ["STOP"]
    case Toggle => ["TOGGLE"]
    case Status => ["STATUS"]
    case Quit => ["QUIT"]
  }

  lemma Keywords()
    ensures IsWord("START") && IsWord("STOP") && IsWord("TOGGLE") && IsWord("STATUS") && IsWord("QUIT")
    ensures IsWord("indefinite") && IsWord("display")
  {
    forall c: char | '!' <= c <= '~' ensures !IsWhitespace(c) {
      NotWhitespace(c);
    }
    hide IsWhitespace;
  }

  lemma LastWord(w: string)
    requires IsWord(w)
    ensures Words(w + "\n") == [w]
  {
    WordsCons(w, "\n");
    WordsOfBlank("\n");
  }

  lemma NextWord(w: string, rest: string)
    requires IsWord(w)
    ensures Words(w + (" " + rest)) == [w] + Words(rest)
  {
    assert Blank(" ");
    hide Words, IsWhitespace;
    WordsCons(w, " " + rest);
    WordsSkipBlank(" ", rest);
  }

  lemma StartWords(w: string, keepDisplayAwake: bool)
    requires IsWord(w)
    ensures Words("START" + (" " + w) + (if keepDisplayAwake then " display" else "") + "\n")
         == ["START", w] + (if keepDisplayAwake then ["display"] else [])
  {
    hide Words, IsWord;
    Keywords();
    if keepDisplayAwake {
      LastWord("display");
      assert "display" + "\n" == "display\n";
      NextWord(w, "display\n");
      NextWord("START", w + (" " + "display\n"));
      assert "START" + (" " + w) + " display" + "\n" == "START" + (" " + (w + (" " + "display\n")));
      assert ["START"] + ([w] + ["display"]) == ["START", w] + ["display"];
    } else {
      LastWord(w);
      NextWord("START", w + "\n");
      assert "START" + (" " + w) + "" + "\n" == "START" + (" " + (w + "\n"));
      assert ["START"] + [w] == ["START", w] + [];
    }
  }

  lemma WordsOfSerialized(command: IpcCommand)
    ensures Words(Serialized(command)) == WireWords(command)
  {
    hide Words, IsWord, Decimal;
    Keywords();
    match command
    case Start(Some(d), k) =>
      DecimalWord(d.secs);
      StartWords(Decimal(d.secs) + "s", k);
      assert " " + Decimal(d.secs) + "s" == " " + (Decimal(d.secs) + "s");
    case Start(None, k) =>
      StartWords("indefinite", k);
      assert " " + "indefinite" == " indefinite";
    case Stop =>
      assert Serialized(command) == "STOP" + "\n";
      LastWord("STOP");
    case Toggle =>
      assert Serialized(command) == "TOGGLE" + "\n";
      LastWord("TOGGLE");
    case Status =>
      assert Serialized(command) == "STATUS" + "\n";
      LastWord("STATUS");
    case Quit =>
      assert Serialized(command) == "QUIT" + "\n";
      LastWord("QUIT");
  }

  /** What the wire form of a command denotes is that command, exactly when it is transmissible. */
  lemma CommandRoundTrip(command: IpcCommand)
    ensures Denotes(Words(Serialized(command)), command) <==> Transmissible(command)
  {
    hide Words, IsWord, Decimal, ParseDurationSpec;
    WordsOfSerialized(command);
    if command.Start? && command.duration.Some? {
      DecimalWord(command.duration.value.secs);
      DecimalSpec(command.duration.value.secs);
    }
    assert Upper("START") == "START" && Upper("STOP") == "STOP" && Upper("TOGGLE") == "TOGGLE";
    assert Upper("STATUS") == "STATUS" && Upper("QUIT") == "QUIT";
  }

  /** The parser only produces commands the wire can carry back: serializing is a normal form of
      every accepted line. */
  lemma SerializedIsNormalForm(line: string, command: IpcCommand)
    requires Denotes(Words(line), command)
    ensures Transmissible(command) && Denotes(Words(Serialized(command)), command)
  {
    CommandRoundTrip(command);
  }

  /** `serialize`: the line denotes the command it was made from, exactly when the wire can carry
      that command. */
  method Serialize(command: IpcCommand) returns (s: string)
    ensures s == Serialized(command)
    ensures Denotes(Words(s), command) <==> Transmissible(command)
  {
    hide Words, Denotes, Transmissible, Decimal;
    CommandRoundTrip(command);
    match command
    case Start(duration, keepDisplayAwake) =>
      s := "START";
      if duration.Some? {
        var secs := duration.value.secs;
        s := s + " ";
        s := s + Decimal(secs);
        s := s + "s";
      } else {
        s := s + " indefinite";
      }
      if keepDisplayAwake {
        s := s + " display";
      }
      s := s + "\n";
    case Stop => s := "STOP\n";
    case Toggle => s := "TOGGLE\n";
    case Status => s := "STATUS\n";
    case Quit => s := "QUIT\n";
  }

  // ----- Responses -----

  datatype SessionStatus = SessionStatus(keepDisplayAwake: bool, remainingCompact: Option<string>)

  datatype IpcResponse =
    | Ok(message: string)
    | Status(status: Option<SessionStatus>)
    | Err(message: string)

  function SerializedResponse(response: IpcResponse): string {
    match response
    case Ok(message) => "OK " + message + "\n"
    case Err(message) => "ERR " + message + "\n"
    case Status(None) => "STATUS inactive\n"
    case Status(Some(SessionStatus(keepDisplayAwake, remaining))) =>
      var display := if keepDisplayAwake then "display" else "nodisplay";
      match remaining
      case None => "STATUS active " + display + "\n"
      case Some(text) => "STATUS active " + display + " " + text + "\n"
  }

  predicate StartsWith(s: string, prefix: string) {
    |prefix| <= |s| && s[..|prefix|] == prefix
  }

  /** Index of the first space, or the length. */
  function FirstSpace(s: string): (n: nat)
    ensures n <= |s| && (n < |s| ==> s[n] == ' ') && forall i | 0 <= i < n :: s[i] != ' '
  {
    if s == [] || s[0] == ' ' then 0 else 1 + FirstSpace(s[1..])
  }

  function ParseResponse(line: string): Option<IpcResponse> {
    var trimmed := Trim(line);
    if StartsWith(trimmed, "OK ") then Some(IpcResponse.Ok(trimmed[3..]))
    else if StartsWith(trimmed, "ERR ") then Some(IpcResponse.Err(trimmed[4..]))
    else if trimmed == "OK" then Some(IpcResponse.Ok(""))
    else if trimmed == "ERR" then Some(IpcResponse.Err(""))
    else if trimmed == "STATUS inactive" then Some(IpcResponse.Status(None))
    else if StartsWith(trimmed, "STATUS active ") then ParseActive(trimmed[14..])
    else None
  }

  function ParseActive(rest: string): Option<IpcResponse> {
    var n := FirstSpace(rest);
    if n < |rest| then
      var remaining := Trim(rest[n + 1..]);
      if remaining == [] then None
      else ParseDisplay(rest[..n], Some(remaining))
    else ParseDisplay(rest, None)
  }

  function ParseDisplay(token: string, remaining: Option<string>): Option<IpcResponse> {
    if token == "display" then Some(IpcResponse.Status(Some(SessionStatus(true, remaining))))
    else if token == "nodisplay" then Some(IpcResponse.Status(Some(SessionStatus(false, remaining))))
    else None
  }

  /** The grammar of response lines without their margins. */
  ghost predicate CoreAnswers(core: string, response: IpcResponse) {
    match response
    case Ok(message) => core == if message == "" then "OK" else "OK " + message
    case Err(message) => core == if message == "" then "ERR" else "ERR " + message
    case Status(None) => core == "STATUS inactive"
    case Status(Some(SessionStatus(k, None))) => core == "STATUS active " + DisplayToken(k)
    case Status(Some(SessionStatus(k, Some(text)))) =>
      text != "" && Tight(text)
      && exists gap: string :: Blank(gap) && core == "STATUS active " + DisplayToken(k) + " " + (gap + text)
  }

  /** The grammar of response lines: one of these between two blank margins. */
  ghost predicate Answers(line: string, response: IpcResponse) {
    exists lead: string, core: string, trail: string ::
      Blank(lead) && Blank(trail) && Tight(core) && line == lead + core + trail && CoreAnswers(core, response)
  }

  /** What a response keeps of its text: messages lose trailing whitespace; remaining text loses
      both margins, and counts as absent when nothing is left. */
  function Normal(response: IpcResponse): IpcResponse {
    match response
    case Ok(message) => IpcResponse.Ok(TrimEnd(message))
    case Err(message) => IpcResponse.Err(TrimEnd(message))
    case Status(None) => response
    case Status(Some(SessionStatus(k, None))) => response
    case Status(Some(SessionStatus(k, Some(text)))) =>
      IpcResponse.Status(Some(SessionStatus(k, if Trim(text) == [] then None else Some(Trim(text)))))
  }

  lemma BlankMargins()
    ensures Blank(" ") && Blank("\n")
  {
  }

  /** A text that starts with a non-blank head is trimmed to that head and its trimmed tail. */
  lemma TrimWithHead(head: string, body: string)
    requires head != [] && !IsWhitespace(head[0]) && !IsWhitespace(head[|head| - 1])
    ensures Trim(head + " " + body + "\n") ==
            if TrimEnd(body) == [] then head else head + " " + TrimEnd(body)
  {
    hide IsWhitespace, Trim;
    BlankMargins();
    var core, margin := TrimEnd(body), body[CoreEnd(body)..] + "\n";
    var whole := head + " " + body + "\n";
    TrimIsTrimEnd(whole);
    if core == [] {
      assert body[CoreEnd(body)..] == body;
      assert whole == head + (" " + margin);
      TrimEndUnique(head, " " + margin);
    } else {
      assert body == core + body[CoreEnd(body)..];
      assert whole == (head + " " + core) + margin;
      TrimEndUnique(head + " " + core, margin);
    }
  }

  /** Parsing what was serialized gives the normal form, for every response at all. */
  lemma ParseSerializedResponse(response: IpcResponse)
    ensures ParseResponse(SerializedResponse(response)) == Some(Normal(response))
  {
    hide Trim, TrimEnd, IsWhitespace, ParseResponse;
    match response
    case Ok(message) => OkParses(message);
    case Err(message) => ErrParses(message);
    case Status(None) => InactiveParses();
    case Status(Some(SessionStatus(k, None))) => ActiveParses(k);
    case Status(Some(SessionStatus(k, Some(text)))) => RemainingParses(k, text);
  }

  lemma OkParses(message: string)
    ensures ParseResponse("OK " + message + "\n") == Some(IpcResponse.Ok(TrimEnd(message)))
  {
    TrimWithHead("OK", message);
    hide Trim, TrimEnd, IsWhitespace;
    assert "OK " + message + "\n" == "OK" + " " + message + "\n";
  }

  lemma ErrParses(message: string)
    ensures ParseResponse("ERR " + message + "\n") == Some(IpcResponse.Err(TrimEnd(message)))
  {
    hide CoreEnd;
    TrimWithHead("ERR", message);
    hide Trim, TrimEnd, IsWhitespace;
    assert "ERR " + message + "\n" == "ERR" + " " + message + "\n";
    var t := Trim("ERR " + message + "\n");
    assert t[0] == 'E';
    assert !StartsWith(t, "OK ");
    if TrimEnd(message) == [] {
      assert t == "ERR";
    } else {
      assert t == "ERR " + TrimEnd(message);
      assert t[4..] == TrimEnd(message);
    }
  }

  lemma TrimLine(t: string)
    requires Tight(t)
    ensures Trim(t + "\n") == t
  {
    assert Blank("\n") && [] + t + "\n" == t + "\n";
    hide Trim, IsWhitespace;
    TrimUnique([], t, "\n");
  }

  lemma InactiveParses()
    ensures ParseResponse("STATUS inactive\n") == Some(IpcResponse.Status(None))
  {
    var t := "STATUS inactive";
    NotWhitespace('S');
    NotWhitespace('e');
    hide Trim, IsWhitespace;
    TrimLine(t);
    assert t + "\n" == "STATUS inactive\n" && t[0] == 'S' && t[1] == 'T';
    assert !StartsWith(t, "OK ") && !StartsWith(t, "ERR ");
  }

  function DisplayToken(keepDisplayAwake: bool): string {
    if keepDisplayAwake then "display" else "nodisplay"
  }

  lemma ActiveParses(k: bool)
    ensures ParseResponse("STATUS active " + DisplayToken(k) + "\n")
         == Some(IpcResponse.Status(Some(SessionStatus(k, None))))
  {
    var token := DisplayToken(k);
    var t := "STATUS active " + token;
    assert t[|t| - 1] == 'y';
    TrimLine(t);
    hide Trim, IsWhitespace, FirstSpace;
    HeadIsStatus(t, token);
    TokenHasNoSpace(k);
  }

  lemma TokenHasNoSpace(k: bool)
    ensures forall i | 0 <= i < |DisplayToken(k)| :: DisplayToken(k)[i] != ' '
    ensures FirstSpace(DisplayToken(k)) == |DisplayToken(k)|
  {
    hide FirstSpace;
  }

  lemma HeadIsStatus(t: string, rest: string)
    requires t == "STATUS active " + rest
    ensures !StartsWith(t, "OK ") && !StartsWith(t, "ERR ")
    ensures t != "OK" && t != "ERR" && t != "STATUS inactive"
    ensures StartsWith(t, "STATUS active ") && t[14..] == rest
  {
    assert t[0] == 'S' && t[7] == 'a';
  }

  lemma StatusLine(line: string)
    requires StartsWith(Trim(line), "STATUS active ")
    ensures ParseResponse(line) == ParseActive(Trim(line)[14..])
  {
    hide Trim, ParseActive;
    var t := Trim(line);
    HeadIsStatus(t, t[14..]);
  }

  lemma ActiveRest(t: string, k: bool, core: string)
    requires t == "STATUS active " + DisplayToken(k) + " " + core && Trim(core) != []
    ensures StartsWith(t, "STATUS active ")
    ensures ParseActive(t[14..]) == Some(IpcResponse.Status(Some(SessionStatus(k, Some(Trim(core))))))
  {
    hide Trim, TrimEnd, IsWhitespace, FirstSpace;
    var token := DisplayToken(k);
    var rest := token + " " + core;
    assert t == "STATUS active " + rest;
    assert t[14..] == rest;
    TokenHasNoSpace(k);
    FirstSpaceAt(token, core);
    assert rest[|token| + 1..] == core && rest[..|token|] == token;
  }

  lemma HeadIsSolid(k: bool)
    ensures var head := "STATUS active " + DisplayToken(k);
            !IsWhitespace(head[0]) && !IsWhitespace(head[|head| - 1])
  {
    NotWhitespace('S');
    NotWhitespace('y');
  }

  lemma RemainingParses(k: bool, text: string)
    ensures ParseResponse("STATUS active " + DisplayToken(k) + " " + text + "\n")
         == Some(Normal(IpcResponse.Status(Some(SessionStatus(k, Some(text))))))
  {
    hide Trim, TrimEnd, IsWhitespace, FirstSpace, ParseActive, ParseResponse, DisplayToken;
    var token := DisplayToken(k);
    var head := "STATUS active " + token;
    HeadIsSolid(k);
    TrimWithHead(head, text);
    var core := TrimEnd(text);
    var line := head + " " + text + "\n";
    TrimOfTrimEnd(text);
    EmptyCore(text);
    if core == [] {
      HeadIsStatus(head, token);
      TokenIsActive(k);
    } else {
      ActiveRest(head + " " + core, k, core);
    }
    StatusLine(line);
  }

  lemma TokenIsActive(k: bool)
    ensures ParseActive(DisplayToken(k)) == Some(IpcResponse.Status(Some(SessionStatus(k, None))))
  {
    hide FirstSpace;
    TokenHasNoSpace(k);
  }

  lemma EmptyCore(s: string)
    ensures TrimEnd(s) == [] <==> Trim(s) == []
  {
    var lead, trail := TrimParts(s);
    if Trim(s) == [] {
      assert s == lead + trail;
      assert CoreEnd(s) == 0;
    }
    if TrimEnd(s) == [] {
      TrimUnique(s, [], []);
      assert s + [] + [] == s;
    }
  }

  lemma FirstSpaceAt(token: string, core: string)
    requires forall i | 0 <= i < |token| :: token[i] != ' '
    ensures FirstSpace(token + " " + core) == |token|
  {
    var s := token + " " + core;
    assert s[|token|] == ' ' && forall i | 0 <= i < |token| :: s[i] == token[i];
  }

  /** The parser accepts exactly the lines of the grammar, each as the response it denotes. */
  lemma AnswersExactly(line: string, response: IpcResponse)
    ensures ParseResponse(line) == Some(response) <==> Answers(line, response)
  {
    hide Trim, CoreAnswers, ParseResponse, IsWhitespace;
    var lead, trail := TrimParts(line);
    if ParseResponse(line) == Some(response) {
      ParsedIsAnswer(line, response);
      assert line == lead + Trim(line) + trail;
    }
    forall lead: string, core: string, trail: string |
      Blank(lead) && Blank(trail) && Tight(core) && line == lead + core + trail && CoreAnswers(core, response)
      ensures ParseResponse(line) == Some(response)
    {
      TrimUnique(lead, core, trail);
      AnswerIsParsed(line, response);
    }
  }

  lemma ParsedIsAnswer(line: string, response: IpcResponse)
    requires ParseResponse(line) == Some(response)
    ensures CoreAnswers(Trim(line), response)
  {
    hide Trim, FirstSpace;
    var t := Trim(line);
    if StartsWith(t, "OK ") {
      assert t == "OK " + t[3..];
    } else if StartsWith(t, "ERR ") {
      assert t == "ERR " + t[4..];
    } else if StartsWith(t, "STATUS active ") {
      assert t == "STATUS active " + t[14..];
      StatusLine(line);
      ActiveIsAnswer(t, response);
    }
  }

  lemma ActiveIsAnswer(t: string, response: IpcResponse)
    requires Tight(t) && StartsWith(t, "STATUS active ") && ParseActive(t[14..]) == Some(response)
    ensures CoreAnswers(t, response)
  {
    hide Blank;
    hide Trim, FirstSpace, IsWhitespace;
    var rest := t[14..];
    var n := FirstSpace(rest);
    assert t == "STATUS active " + rest;
    if n < |rest| {
      var tail := rest[n + 1..];
      var gap, trail := TrimParts(tail);
      assert rest == rest[..n] + " " + tail;
      assert tail[|tail| - 1] == t[|t| - 1] && CoreEnd(tail) == |tail|;
      TrimEndUnique(gap + Trim(tail), trail);
      assert tail == gap + Trim(tail) == gap + Trim(tail) + trail;
      assert gap + Trim(tail) + [] == gap + Trim(tail);
      assert t == "STATUS active " + rest[..n] + " " + (gap + Trim(tail));
    } else {
      assert rest[..n] == rest;
    }
  }

  lemma AnswerIsParsed(line: string, response: IpcResponse)
    requires CoreAnswers(Trim(line), response)
    ensures ParseResponse(line) == Some(response)
  {
    hide Trim, IsWhitespace, FirstSpace, ParseActive, DisplayToken;
    var t := Trim(line);
    match response
    case Ok(message) =>
      assert message != "" ==> StartsWith(t, "OK ") && t[3..] == message;
    case Err(message) =>
      assert t[0] == 'E';
      assert message != "" ==> StartsWith(t, "ERR ") && t[4..] == message;
    case Status(None) =>
      assert t[0] == 'S';
    case Status(Some(SessionStatus(k, None))) =>
      HeadIsStatus(t, DisplayToken(k));
      StatusLine(line);
      TokenIsActive(k);
    case Status(Some(SessionStatus(k, Some(text)))) =>
      var gap: string :| Blank(gap) && t == "STATUS active " + DisplayToken(k) + " " + (gap + text);
      assert gap + text + [] == gap + text;
      TrimUnique(gap, text, []);
      ActiveRest(t, k, gap + text);
      StatusLine(line);
  }

  /** Exactly the normal responses survive; this includes empty messages. */
  lemma ResponseRoundTrip(response: IpcResponse)
    ensures ParseResponse(SerializedResponse(response)) == Some(response) <==> Normal(response) == response
  {
    ParseSerializedResponse(response);
  }

  /** Two responses share a wire form only if they have the same normal form. */
  lemma SerializedResponseInjective(a: IpcResponse, b: IpcResponse)
    requires SerializedResponse(a) == SerializedResponse(b)
    ensures Normal(a) == Normal(b)
  {
    ParseSerializedResponse(a);
    ParseSerializedResponse(b);
  }

  lemma CountdownIsTight(remaining: Duration)
    ensures FormatCompactDuration(remaining) != [] && Tight(FormatCompactDuration(remaining))
  {
    var r := CountdownReads(remaining);
    NotWhitespace('<');
    NotWhitespace('m');
    NotWhitespace('h');
    hide FormatCompactDuration, IsWhitespace, Decimal;
    if !r.UnderOne? {
      var n, rest := ReadingSplit(r);
      NotWhitespace(Decimal(n)[0]);
      assert r.Text()[0] == Decimal(n)[0];
    }
  }

  /** Every status the application sends survives: its remaining text comes from
      `format_compact_duration`. */
  lemma StatusSurvives(keepDisplayAwake: bool, remaining: Duration)
    ensures var status := SessionStatus(keepDisplayAwake, Some(FormatCompactDuration(remaining)));
            var response := IpcResponse.Status(Some(status));
            ParseResponse(SerializedResponse(response)) == Some(response)
  {
    hide FormatCompactDuration, IsWhitespace, ParseResponse, SerializedResponse, Trim;
    var text := FormatCompactDuration(remaining);
    CountdownIsTight(remaining);
    assert [] + text + [] == text;
    TrimUnique([], text, []);
    ResponseRoundTrip(IpcResponse.Status(Some(SessionStatus(keepDisplayAwake, Some(text)))));
  }
}
