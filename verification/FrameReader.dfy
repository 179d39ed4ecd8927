/** Receiving one frame, serving one connection, and the client's side of the exchange
    (crates/app/src/ipc_server.rs, crates/app-core/src/ipc.rs). */
module FrameReader {
  import opened Wrappers
  import opened Utf8
  import opened Text
  import opened DurationText
  import opened Ipc

  const NEWLINE: byte := 10
  const CHUNK_BYTES: nat := 512

  datatype ErrorKind = TimedOut | InvalidData | Interrupted | OtherKind(code: nat)

  datatype FrameResult = Frame(bytes: seq<byte>) | Failed(kind: ErrorKind)

  /** What the kernel makes of one read: configuring the timeout fails, the read fails, or it
      delivers; `most` is how much of the unread stream has arrived, beyond the first byte. */
  datatype Offer = Misconfigured(kind: ErrorKind) | Fails(kind: ErrorKind) | Delivers(most: nat)
  {
    /** Only the read itself may be retried, and only after an interruption. */
    predicate Fatal() {
      Misconfigured? || (Fails? && kind != Interrupted)
    }
  }

  function Min(a: nat, b: nat): nat {
    if a <= b then a else b
  }

  // ----- The chunk-free specification -----

  /** Index of the first newline, or the length. */
  function FirstNewline(stream: seq<byte>): (n: nat)
    ensures n <= |stream|
    ensures forall i | 0 <= i < n :: stream[i] != NEWLINE
    ensures n < |stream| ==> stream[n] == NEWLINE
  {
    if stream == [] || stream[0] == NEWLINE then 0 else 1 + FirstNewline(stream[1..])
  }

  /** A frame that a stream begins with: at most 4096 bytes, ending in their only newline. */
  predicate Begins(stream: seq<byte>, frame: seq<byte>) {
    frame <= stream && 1 <= |frame| <= 4096 && frame[|frame| - 1] == 10 && 10 !in frame[..|frame| - 1]
  }

  /** The frame a byte stream holds: through the first newline if that fits, oversized as soon as
      4097 bytes hold none, and incomplete when the stream ends before either. */
  function FrameSpec(stream: seq<byte>): FrameResult {
    var n := FirstNewline(stream);
    if n < |stream| && n < MAX_FRAME_BYTES then Frame(stream[..n + 1])
    else if |stream| > MAX_FRAME_BYTES then Failed(InvalidData)
    else Failed(TimedOut)
  }

  /** No newline byte among these. */
  predicate Unbroken(bytes: seq<byte>) {
    10 !in bytes
  }

  /** A stream holds a frame, or more than 4096 bytes of which the first 4096 have no newline, or at most
      4096 with no newline: exactly one of these. */
  lemma FrameSpecDecides(stream: seq<byte>)
    ensures FrameSpec(stream).Frame? <==> exists frame :: Begins(stream, frame)
    ensures forall frame :: Begins(stream, frame) ==> FrameSpec(stream) == Frame(frame)
    ensures FrameSpec(stream) == Failed(InvalidData) <==> |stream| > 4096 && Unbroken(stream[..4096])
    ensures FrameSpec(stream) == Failed(TimedOut) <==> |stream| <= 4096 && Unbroken(stream)
  {
    var n := FirstNewline(stream);
    if n < |stream| && n < 4096 {
      FrameFound(stream, n);
    }
    forall frame | Begins(stream, frame) ensures FrameSpec(stream) == Frame(frame) {
      assert stream[|frame| - 1] == NEWLINE && forall i | 0 <= i < |frame| - 1 :: stream[i] == frame[..|frame| - 1][i];
      assert n == |frame| - 1;
    }
  }

  lemma FrameFound(stream: seq<byte>, n: nat)
    requires n < MAX_FRAME_BYTES && n < |stream| && stream[n] == NEWLINE && n <= FirstNewline(stream)
    ensures FrameSpec(stream) == Frame(stream[..n + 1]) && Begins(stream, stream[..n + 1])
  {
    assert FirstNewline(stream) == n;
  }

  lemma NoFrame(stream: seq<byte>)
    requires FirstNewline(stream) == |stream|
             || (FirstNewline(stream) >= MAX_FRAME_BYTES && |stream| > MAX_FRAME_BYTES)
    ensures FrameSpec(stream) == Failed(if |stream| > MAX_FRAME_BYTES then InvalidData else TimedOut)
    ensures Unbroken(if |stream| > 4096 then stream[..4096] else stream)
  {
  }

  // ----- The loop -----

  /** Why the reader returned: it decided on what it had received, the clock reached the budget,
      or a read failed. */
  datatype Cause = Decided | OutOfTime | ReadFailed

  /** The bytes of one chunk, one after the other: the frame is complete, or too long, or goes on. */
  method Scan(ghost stream: seq<byte>, frame: seq<byte>, chunk: seq<byte>)
    returns (longer: seq<byte>, done: Option<FrameResult>)
    requires frame + chunk <= stream && |frame| <= MAX_FRAME_BYTES && |frame| <= FirstNewline(stream)
    ensures done.None? ==>
              longer == frame + chunk && |longer| <= MAX_FRAME_BYTES && |longer| <= FirstNewline(stream)
    ensures done.Some? ==> done.value == FrameSpec(stream)
    ensures done.Some? && done.value.Frame? ==>
              Begins(stream, done.value.bytes) && |done.value.bytes| <= |frame| + |chunk|
    ensures done.Some? && done.value.Failed? ==>
              |stream| > 4096 && done.value.kind == InvalidData && Unbroken(stream[..4096])
  {
    hide FirstNewline, Begins, FrameSpec, Unbroken;
    longer, done := frame, None;
    for i := 0 to |chunk|
      invariant longer == frame + chunk[..i] <= stream && |longer| <= MAX_FRAME_BYTES
      invariant |longer| <= FirstNewline(stream)
    {
      assert chunk[..i + 1] == chunk[..i] + [chunk[i]];
      assert chunk[i] == (frame + chunk)[|longer|] == stream[|longer|];
      longer := longer + [chunk[i]];
      assert longer == stream[..|longer|];
      if |longer| > MAX_FRAME_BYTES {
        NoFrame(stream);
        return longer, Some(Failed(InvalidData));
      }
      if chunk[i] == NEWLINE {
        FrameFound(stream, |longer| - 1);
        return longer, Some(Frame(longer));
      }
    }
    assert chunk[..|chunk|] == chunk;
  }

  /** `read_frame_with`, over the bytes the peer sends before closing, the outcome `offers(i)` of
      the i-th read and the value `clock(i)` of the i-th look at the elapsed time. Some look,
      at the latest number `deadline`, finds the budget spent and so do all later ones.
      Whatever the chunking and the interruptions, the result is `FrameSpec` of the stream unless
      a look at the clock found the budget spent or a read failed for good. */
  method ReadFrame(
    stream: seq<byte>, offers: nat -> Offer, clock: nat -> nat, budget: nat, ghost deadline: nat)
    returns (r: FrameResult, consumed: nat, ghost cause: Cause, ghost looks: nat, ghost tries: nat)
    requires forall i: nat :: i >= deadline ==> clock(i) >= budget
    ensures consumed <= |stream| && consumed <= MAX_FRAME_BYTES + 1
    ensures cause == Decided ==> r == FrameSpec(stream) && (r.Frame? ==> |r.bytes| <= consumed)
    ensures r.Frame? ==> cause == Decided && Begins(stream, r.bytes)
    ensures cause == Decided && r.Failed? ==>
              if |stream| > 4096 then r.kind == InvalidData && Unbroken(stream[..4096])
              else r.kind == TimedOut && Unbroken(stream)
    ensures cause == OutOfTime ==> r == Failed(TimedOut) && looks > 0 && clock(looks - 1) >= budget
    ensures cause == ReadFailed ==> tries > 0 && offers(tries - 1).Fatal() && r == Failed(offers(tries - 1).kind)
    ensures forall i: nat | i < looks && (i < looks - 1 || cause != OutOfTime) :: clock(i) < budget
    ensures forall i: nat | i < tries && (i < tries - 1 || cause != ReadFailed) :: !offers(i).Fatal()
    ensures looks <= 2 * tries + 1
    ensures (forall i: nat | i < tries :: offers(i).Delivers?) ==> tries <= consumed + 1
  {
    hide FirstNewline, Begins, FrameSpec, Unbroken;
    var frame: seq<byte> := [];
    consumed, cause, looks, tries := 0, Decided, 0, 0;
    var look, read := 0, 0;
    while true
      invariant looks == look && tries == read && cause == Decided
      invariant consumed == |frame| <= MAX_FRAME_BYTES && consumed <= |stream| && frame == stream[..consumed]
      invariant consumed <= FirstNewline(stream)
      invariant forall i: nat | i < look :: clock(i) < budget
      invariant forall i: nat | i < read :: !offers(i).Fatal()
      invariant look <= 2 * read
      invariant (forall i: nat | i < read :: offers(i).Delivers?) ==> read <= consumed
      decreases if look < deadline then deadline - look else 0
    {
      var elapsed := clock(look);
      look, looks := look + 1, looks + 1;
      var remaining := if elapsed < budget then budget - elapsed else 0;
      if remaining == 0 {
        cause := OutOfTime;
        return Failed(TimedOut), consumed, cause, looks, tries;
      }
      var limit := MAX_FRAME_BYTES + 1 - |frame|;
      assert limit > 0;
      var offer := offers(read);
      read, tries := read + 1, tries + 1;
      match offer
      case Misconfigured(kind) =>
        cause := ReadFailed;
        return Failed(kind), consumed, cause, looks, tries;
      case Fails(kind) =>
        if kind == Interrupted {
          continue;
        }
        cause := ReadFailed;
        return Failed(kind), consumed, cause, looks, tries;
      case Delivers(most) =>
        var length := Min(Min(1 + most, CHUNK_BYTES), Min(limit, |stream| - consumed));
        if length == 0 {
          NoFrame(stream);
          return Failed(TimedOut), consumed, cause, looks, tries;
        }
        var chunk := stream[consumed..consumed + length];
        consumed := consumed + length;
        elapsed := clock(look);
        look, looks := look + 1, looks + 1;
        if elapsed >= budget {
          cause := OutOfTime;
          return Failed(TimedOut), consumed, cause, looks, tries;
        }
        var done;
        frame, done := Scan(stream, frame, chunk);
        if done.Some? {
          return done.value, consumed, cause, looks, tries;
        }
    }
  }

  // ----- Serving a connection -----

  /** What one connection led to: the command handed to the handler, and the bytes written. */
  datatype Served = Served(command: Option<IpcCommand>, reply: Option<seq<byte>>)

  const INVALID_FRAME: string := "ERR invalid frame\n"
  const INVALID_COMMAND: string := "ERR invalid command\n"

  /** `serve_connection_with`; `configured` tells whether both socket options could be set and
      `stopping` is what the load after the frame returns. */
  method ServeConnection(
    stream: seq<byte>, offers: nat -> Offer, clock: nat -> nat, budget: nat, ghost deadline: nat,
    configured: bool, stopping: bool, handler: IpcCommand -> IpcResponse)
    returns (served: Served, ghost cause: Cause, ghost looks: nat, ghost tries: nat)
    requires forall i: nat :: i >= deadline ==> clock(i) >= budget
    ensures !configured ==> served == Served(None, None)
    ensures configured && (cause != Decided || FrameSpec(stream).Failed?) ==>
              served == Served(None, Some(Encode(INVALID_FRAME)))
    ensures configured && cause == Decided && FrameSpec(stream).Frame? ==>
              var text := Decode(FrameSpec(stream).bytes);
              if stopping then served == Served(None, None)
              else if served.command.None? then
                && served.reply == Some(Encode(INVALID_COMMAND))
                && (text.Some? ==> forall command :: !Denotes(Words(text.value), command))
              else
                && text.Some? && Denotes(Words(text.value), served.command.value)
                && served.reply == Some(Encode(SerializedResponse(handler(served.command.value))))
    ensures cause == OutOfTime ==> 0 < looks <= 2 * tries + 1 && clock(looks - 1) >= budget
    ensures cause == ReadFailed ==> tries > 0 && offers(tries - 1).Fatal()
    ensures (forall i: nat | i < tries :: offers(i).Delivers?) ==> tries <= MAX_FRAME_BYTES + 2
  {
    hide Words, Denotes, Encode, Decode, FrameSpec, FirstNewline, SerializedResponse;
    cause, looks, tries := Decided, 0, 0;
    if !configured {
      return Served(None, None), cause, looks, tries;
    }
    var frame, consumed;
    frame, consumed, cause, looks, tries := ReadFrame(stream, offers, clock, budget, deadline);
    if frame.Failed? {
      return Served(None, Some(Encode(INVALID_FRAME))), cause, looks, tries;
    }
    if stopping {
      return Served(None, None), cause, looks, tries;
    }
    var text := Decode(frame.bytes);
    if text.None? {
      return Served(None, Some(Encode(INVALID_COMMAND))), cause, looks, tries;
    }
    var command := Parse(text.value);
    if command.None? {
      return Served(None, Some(Encode(INVALID_COMMAND))), cause, looks, tries;
    }
    var response := handler(command.value);
    return Served(command, Some(Encode(SerializedResponse(response)))), cause, looks, tries;
  }

  // ----- End to end -----

  lemma {:induction false} DecimalShort(n: nat, digits: nat, bound: nat)
    requires digits >= 1 && n < bound && bound == PowerOfTen(digits)
    ensures |Decimal(n)| <= digits
    decreases digits
  {
    if digits > 1 && n >= 10 {
      assert n / 10 < PowerOfTen(digits - 1);
      DecimalShort(n / 10, digits - 1, PowerOfTen(digits - 1));
    }
  }

  function PowerOfTen(digits: nat): nat {
    if digits == 0 then 1 else 10 * PowerOfTen(digits - 1)
  }

  lemma EncodedNewline()
    ensures Encode("\n") == [NEWLINE]
  {
    assert "\n"[1..] == "";
  }

  /** A text line ending in its only newline is one frame, whatever follows it. */
  lemma LineIsFrame(body: string, extra: seq<byte>)
    requires '\n' !in body && |Encode(body)| < MAX_FRAME_BYTES
    ensures FrameSpec(Encode(body + "\n") + extra) == Frame(Encode(body + "\n"))
    ensures Decode(Encode(body + "\n")) == Some(body + "\n")
  {
    EncodedNewline();
    hide Encode, Decode;
    NewlineOnlyFromNewline(body);
    EncodeConcat(body, "\n");
    DecodeEncoded(body + "\n");
    var line, stream := Encode(body + "\n"), Encode(body + "\n") + extra;
    assert line == Encode(body) + [NEWLINE];
    assert forall i | 0 <= i < |Encode(body)| :: stream[i] == Encode(body)[i];
    assert stream[|Encode(body)|] == NEWLINE;
    assert FirstNewline(stream) == |Encode(body)|;
    assert stream[..|line|] == line;
  }

  /** The wire form of a transmissible command without its newline. */
  lemma CommandLine(command: IpcCommand) returns (body: string)
    requires Transmissible(command)
    ensures Serialized(command) == body + "\n" && '\n' !in body && |body| <= 40
  {
    match command
    case Start(duration, k) =>
      var middle := if duration.Some? then " " + Decimal(duration.value.secs) + "s" else " indefinite";
      var tail := if k then " display" else "";
      body := "START" + middle + tail;
      if duration.Some? {
        var secs := duration.value.secs;
        assert PowerOfTen(8) == 100_000_000;
        DecimalShort(secs, 8, PowerOfTen(8));
        NoNewlineInDigits(Decimal(secs));
      }
      assert '\n' !in middle && '\n' !in tail && '\n' !in "START";
    case Stop => body := "STOP"; assert body + "\n" == "STOP\n";
    case Toggle => body := "TOGGLE"; assert body + "\n" == "TOGGLE\n";
    case Status => body := "STATUS"; assert body + "\n" == "STATUS\n";
    case Quit => body := "QUIT"; assert body + "\n" == "QUIT\n";
  }

  lemma NoNewlineInDigits(s: string)
    requires AllDigits(s)
    ensures '\n' !in s
  {
  }

  /** Looks at the clock that a frame can take when no read is interrupted. */
  const MOST_LOOKS: nat := 2 * (MAX_FRAME_BYTES + 2) + 1

  /** For every line the parser accepts: serialize the command, send it in any chunking, with
      anything after it, and the server hands the same command to its handler and answers with
      the handler's response -- unless a look at the clock found the budget spent or a read
      failed, and then no command is handed over. */
  method CommandArrives(
    ghost line: string, command: IpcCommand, extra: seq<byte>,
    offers: nat -> Offer, clock: nat -> nat, budget: nat, ghost deadline: nat,
    handler: IpcCommand -> IpcResponse)
    returns (served: Served, ghost cause: Cause)
    requires Denotes(Words(line), command)
    requires forall i: nat :: i >= deadline ==> clock(i) >= budget
    ensures cause == Decided ==>
              served == Served(Some(command), Some(Encode(SerializedResponse(handler(command)))))
    ensures cause != Decided ==> served.command.None?
    ensures (forall i: nat :: !offers(i).Fatal()) ==> cause != ReadFailed
    ensures (forall i: nat :: offers(i).Delivers?) && (forall i: nat | i < MOST_LOOKS :: clock(i) < budget)
            ==> cause == Decided
  {
    hide Encode, Decode, Words, Denotes, SerializedResponse, Serialized, FrameSpec, FirstNewline, IsWord;
    CommandFrame(line, command, extra);
    var wire := Serialize(command);
    ghost var looks, tries;
    served, cause, looks, tries :=
      ServeConnection(Encode(wire) + extra, offers, clock, budget, deadline, true, false, handler);
    if cause == Decided {
      if served.command.Some? {
        DenotesUnique(Words(Serialized(command)), served.command.value, command);
      }
    }
  }

  /** On the wire a command is one frame, whatever follows, and it denotes the command. */
  lemma CommandFrame(line: string, command: IpcCommand, extra: seq<byte>)
    requires Denotes(Words(line), command)
    ensures var frame := FrameSpec(Encode(Serialized(command)) + extra);
            frame.Frame? && Decode(frame.bytes) == Some(Serialized(command))
    ensures Denotes(Words(Serialized(command)), command)
  {
    hide Encode, Decode, Words, Denotes, Serialized, FrameSpec;
    SerializedIsNormalForm(line, command);
    var body := CommandLine(command);
    EncodeLength(body);
    LineIsFrame(body, extra);
  }

  /** What `read_until` leaves in the buffer: through the first newline, or all there is, or one byte too many. */
  function FirstLineOf(stream: seq<byte>): seq<byte> {
    stream[..Min(Min(FirstNewline(stream) + 1, |stream|), MAX_FRAME_BYTES + 1)]
  }

  /** The client's half of `send_command`: one bounded line, decoded and parsed. */
  function ReceiveResponse(stream: seq<byte>): Result<IpcResponse, ErrorKind> {
    var line := FirstLineOf(stream);
    match Decode(line)
    case None => Result.Err(InvalidData)
    case Some(text) =>
      if |line| > MAX_FRAME_BYTES || text == [] || text[|text| - 1] != '\n' then Result.Err(InvalidData)
      else
        match ParseResponse(text)
        case None => Result.Err(InvalidData)
        case Some(response) => Result.Ok(response)
  }

  /** The text a response carries. */
  function Payload(response: IpcResponse): string {
    match response
    case Ok(message) => message
    case Err(message) => message
    case Status(Some(SessionStatus(_, Some(text)))) => text
    case _ => ""
  }

  function FirstLine(text: string): (line: string)
    ensures line <= text && '\n' !in line
    ensures |line| < |text| ==> text[|line|] == '\n'
  {
    if text == [] || text[0] == '\n' then "" else [text[0]] + FirstLine(text[1..])
  }

  /** The response with its text cut at the first newline. */
  function Cut(response: IpcResponse): IpcResponse {
    match response
    case Ok(message) => IpcResponse.Ok(FirstLine(message))
    case Err(message) => IpcResponse.Err(FirstLine(message))
    case Status(Some(SessionStatus(k, Some(text)))) => IpcResponse.Status(Some(SessionStatus(k, Some(FirstLine(text)))))
    case _ => response
  }

  lemma CutLine(head: string, text: string) returns (tail: string)
    ensures head + text + "\n" == head + FirstLine(text) + "\n" + tail
  {
    var line := FirstLine(text);
    if |line| == |text| {
      tail := "";
      assert line == text;
    } else {
      tail := text[|line| + 1..] + "\n";
      assert text == line + "\n" + text[|line| + 1..];
    }
  }

  /** What a response puts on the wire begins with what its cut form does. */
  lemma WireBeginsWithCut(response: IpcResponse) returns (tail: string)
    ensures SerializedResponse(response) == SerializedResponse(Cut(response)) + tail
    ensures '\n' !in Payload(Cut(response))
  {
    match response
    case Ok(message) => tail := CutLine("OK ", message);
    case Err(message) => tail := CutLine("ERR ", message);
    case Status(Some(SessionStatus(k, Some(text)))) =>
      tail := CutLine("STATUS active " + DisplayToken(k) + " ", text);
    case _ => tail := "";
  }

  lemma ResponseLine(response: IpcResponse) returns (body: string)
    requires '\n' !in Payload(response)
    ensures SerializedResponse(response) == body + "\n" && '\n' !in body
  {
    match response
    case Ok(message) => body := "OK " + message;
    case Err(message) => body := "ERR " + message;
    case Status(None) => body := "STATUS inactive"; assert body + "\n" == "STATUS inactive\n";
    case Status(Some(SessionStatus(k, None))) => body := "STATUS active " + DisplayToken(k);
    case Status(Some(SessionStatus(k, Some(text)))) => body := "STATUS active " + DisplayToken(k) + " " + text;
  }

  /** A one-line response that fits in a frame reaches the client in its normal form. */
  lemma OneLineArrives(response: IpcResponse, extra: seq<byte>)
    requires '\n' !in Payload(response) && |Encode(SerializedResponse(response))| <= MAX_FRAME_BYTES
    ensures ReceiveResponse(Encode(SerializedResponse(response)) + extra) == Result.Ok(Normal(response))
  {
    EncodedNewline();
    hide Encode, Decode, ParseResponse, Normal, SerializedResponse;
    var body := ResponseLine(response);
    EncodeConcat(body, "\n");
    LineIsFrame(body, extra);
    ParseSerializedResponse(response);
    var line := Encode(body + "\n");
    var stream := line + extra;
    assert stream[..FirstNewline(stream) + 1] == line;
    assert (body + "\n")[|body|] == '\n';
  }

  /** A first line that does not fit in a frame is refused. */
  lemma LongLineIsRefused(response: IpcResponse, extra: seq<byte>)
    requires '\n' !in Payload(response) && |Encode(SerializedResponse(response))| > MAX_FRAME_BYTES
    ensures ReceiveResponse(Encode(SerializedResponse(response)) + extra) == Result.Err(InvalidData)
  {
    hide Encode, Decode, ParseResponse, SerializedResponse;
    EncodedNewline();
    var body := ResponseLine(response);
    EncodeConcat(body, "\n");
    NewlineOnlyFromNewline(body);
    var stream := Encode(SerializedResponse(response)) + extra;
    assert forall i | 0 <= i < |Encode(body)| :: stream[i] == Encode(body)[i];
    assert FirstNewline(stream) >= |Encode(body)|;
  }

  /** The client takes a response from exactly the first line: at most 4096 bytes, complete, well-formed
      UTF-8, and in the grammar of responses. */
  lemma ReceivesExactly(stream: seq<byte>, response: IpcResponse)
    ensures ReceiveResponse(stream) == Result.Ok(response) <==>
              exists text: string :: Begins(stream, Encode(text)) && Answers(text, response)
  {
    hide Encode, Decode, ParseResponse, Answers;
    if ReceiveResponse(stream) == Result.Ok(response) {
      var line := FirstLineOf(stream);
      var text := Decode(line).value;
      DecodesExactly(line, text);
      EndsInNewline(text);
      AnswersExactly(text, response);
    }
    forall text: string | Begins(stream, Encode(text)) && Answers(text, response)
      ensures ReceiveResponse(stream) == Result.Ok(response)
    {
      DecodeEncoded(text);
      EndsInNewline(text);
      AnswersExactly(text, response);
      assert FirstNewline(stream) == |Encode(text)| - 1;
      assert FirstLineOf(stream) == Encode(text);
    }
  }

  /** A text ends in a newline exactly if its encoding ends in that byte. */
  lemma EndsInNewline(text: string)
    ensures (text != [] && text[|text| - 1] == '\n') <==>
              (Encode(text) != [] && Encode(text)[|Encode(text)| - 1] == NEWLINE)
  {
    EncodedNewline();
    if text != [] {
      var front, last := text[..|text| - 1], text[|text| - 1..];
      assert text == front + last;
      EncodeConcat(front, last);
      assert Encode(last) == EncodeChar(last[0]) + Encode(last[1..]) && last[1..] == "";
    }
  }

  /** What the client makes of any response, with anything after it: the normal form of its first line
      if that fits in a frame, and otherwise an error. */
  lemma ResponseArrives(response: IpcResponse, extra: seq<byte>)
    ensures ReceiveResponse(Encode(SerializedResponse(response)) + extra)
         == if |Encode(SerializedResponse(Cut(response)))| <= MAX_FRAME_BYTES then Result.Ok(Normal(Cut(response)))
            else Result.Err(InvalidData)
  {
    hide Encode, ReceiveResponse, SerializedResponse, Normal, Cut;
    var tail := WireBeginsWithCut(response);
    var line := Encode(SerializedResponse(Cut(response)));
    EncodeConcat(SerializedResponse(Cut(response)), tail);
    assert Encode(SerializedResponse(response)) + extra == line + (Encode(tail) + extra);
    if |line| <= MAX_FRAME_BYTES {
      OneLineArrives(Cut(response), Encode(tail) + extra);
    } else {
      LongLineIsRefused(Cut(response), Encode(tail) + extra);
    }
  }

  /** What the server writes for a frame it cannot read, or that is no command, reaches the client. */
  lemma RefusalsArrive(extra: seq<byte>)
    ensures ReceiveResponse(Encode(INVALID_FRAME) + extra) == Result.Ok(IpcResponse.Err("invalid frame"))
    ensures ReceiveResponse(Encode(INVALID_COMMAND) + extra) == Result.Ok(IpcResponse.Err("invalid command"))
  {
    hide Encode, ReceiveResponse, IsWhitespace;
    NotWhitespace('e');
    NotWhitespace('d');
    RefusalArrives("invalid frame", extra);
    RefusalArrives("invalid command", extra);
    assert "ERR " + "invalid frame" + "\n" == INVALID_FRAME;
    assert "ERR " + "invalid command" + "\n" == INVALID_COMMAND;
  }

  lemma RefusalArrives(message: string, extra: seq<byte>)
    requires '\n' !in message && message != [] && |message| <= 100 && !IsWhitespace(message[|message| - 1])
    ensures ReceiveResponse(Encode("ERR " + message + "\n") + extra) == Result.Ok(IpcResponse.Err(message))
  {
    hide Encode, ReceiveResponse, IsWhitespace, TrimEnd;
    EncodeLength("ERR " + message + "\n");
    OneLineArrives(IpcResponse.Err(message), extra);
    TrimEndUnique(message, "");
    assert message + "" == message;
  }
}
