/**
  The command line of the chat client: parsing a typed line into a command,
  performing it, and the keyboard loop's rule for carrying on.  The two
  clients of the `myrustchat` crate (`src/bin/client/client.rs` and the
  older `src/bin/client.rs`) share this logic line for line.

  Reading files and images, `basename`, and the socket write are oracles.
*/
module ChatClient {
  import opened Wrappers
  import opened Framing
  import Protocol
  import opened Text

  /** `UserCommand`. */
  datatype UserCommand = Text(text: string) | File(path: string) | Image(path: string) | Quit

  /** `UserCommand::from_str`: split `line + " "` at its first space and look at the first word. */
  function FromStr(line: string): UserCommand
  {
    match SplitOnce(line + [' '], ' ')
    case Some((word, rest)) =>
      if word == ".quit" && rest == [] then Quit
      else if word == ".file" then File(Trim(rest))
      else if word == ".image" then Image(Trim(rest))
      else Text(line)
    case None => Text(line)
  }

  /** Only the line `.quit` itself quits; with anything after it, even spaces, it is text. */
  lemma {:induction false} FromStrQuit(line: string)
    ensures FromStr(line) == Quit <==> line == ".quit"
  {
    SplitAtFirstSpace(line, ".quit");
    if line == ".quit" {
      assert ' ' !in line by { assert forall j :: 0 <= j < |line| ==> line[j] != ' '; }
    }
  }

  /** `.file X` names the trimmed X, the whole text after the first space; the bare word names the empty path. */
  lemma {:induction false} FromStrFile(line: string)
    ensures FromStr(line).File? <==> line == ".file" || ".file " <= line
    ensures line == ".file" ==> FromStr(line) == File("")
    ensures ".file " <= line ==> FromStr(line) == File(Trim(line[6..]))
  {
    SplitAtFirstSpace(line, ".file");
    var parts := SplitOnce(line + [' '], ' ').value;
    if ".file " <= line {
      assert ".file" + [' '] == ".file ";
      assert parts.0 == ".file" && parts.0 != ".quit";
      assert parts.1 == line[6..] + [' '];
      TrimDropsTrailingSpace(line[6..]);
      assert FromStr(line) == File(Trim(parts.1));
    } else if line != ".file" {
      assert parts.0 != ".file";
      assert !FromStr(line).File?;
    }
  }

  /** `.image X` names the trimmed X, the whole text after the first space; the bare word names the empty path. */
  lemma {:induction false} FromStrImage(line: string)
    ensures FromStr(line).Image? <==> line == ".image" || ".image " <= line
    ensures line == ".image" ==> FromStr(line) == Image("")
    ensures ".image " <= line ==> FromStr(line) == Image(Trim(line[7..]))
  {
    SplitAtFirstSpace(line, ".image");
    var parts := SplitOnce(line + [' '], ' ').value;
    if ".image " <= line {
      assert ".image" + [' '] == ".image ";
      assert parts.0 == ".image" && parts.0 != ".quit";
      assert parts.1 == line[7..] + [' '];
      TrimDropsTrailingSpace(line[7..]);
      assert FromStr(line) == Image(Trim(parts.1));
    } else if line != ".image" {
      assert parts.0 != ".image";
      assert !FromStr(line).Image?;
    }
  }

  /** Every other line, the empty one included, is sent unchanged as text. */
  lemma {:induction false} FromStrText(line: string)
    ensures FromStr(line).Text? <==>
              line != ".quit" && line != ".file" && line != ".image" && !(".file " <= line) && !(".image " <= line)
    ensures FromStr(line).Text? ==> FromStr(line) == Text(line)
  {
    FromStrQuit(line);
    FromStrFile(line);
    FromStrImage(line);
    match SplitOnce(line + [' '], ' ')
    case Some(_) =>
    case None =>
  }

  /** Why a command or the client failed. */
  datatype ClientError =
    | FileOperationFailed          // the file or image could not be read
    | SendFailed                   // writing the message datagram failed
    | LoginFailed                  // the server did not answer `LoginOk`
    | ServerReadFailed(cause: ProtocolError)

  /** The client's file system, `basename`, and the state of its connection. */
  datatype ClientIo = ClientIo(
    readImage: string -> Option<seq<Byte>>,
    readFile: string -> Option<seq<Byte>>,
    basename: string -> string,
    sendOk: bool)

  /** A command's result and the message it wrote, if any. */
  datatype Performed = Performed(result: Result<bool, ClientError>, sent: Option<Protocol.ChatMessage>)

  /** `send_message`: the content goes out stamped with the client's own username. */
  function SendMessage(username: string, content: Protocol.ChatMessageContent, io: ClientIo): (r: Performed)
    ensures r.sent.Some? <==> io.sendOk
    ensures r.sent.Some? ==> r.sent.value == Protocol.ChatMessage(username, content)
    ensures r.result == if io.sendOk then Ok(false) else Err(SendFailed)
  {
    if io.sendOk then Performed(Ok(false), Some(Protocol.ChatMessage(username, content)))
    else Performed(Err(SendFailed), None)
  }

  /** The command names a file or image that cannot be read. */
  predicate ReadFails(cmd: UserCommand, io: ClientIo)
  {
    (cmd.File? && io.readFile(cmd.path).None?) || (cmd.Image? && io.readImage(cmd.path).None?)
  }

  /**
    `UserCommand::perform`: `Ok(true)` asks the keyboard loop to stop;
    every other command sends a message, unless its file cannot be read,
    and reports `Ok(false)` when the send succeeds.
  */
  function Perform(cmd: UserCommand, username: string, io: ClientIo): (r: Performed)
    ensures r.result == Ok(true) <==> cmd == Quit
    ensures r.result == Ok(false) <==> r.sent.Some?
    ensures r.sent.Some? ==> r.sent.value.sender == username
    ensures cmd.Text? && r.sent.Some? ==> r.sent.value.content == Protocol.Text(cmd.text)
    ensures cmd.File? && r.sent.Some? ==>
              io.readFile(cmd.path).Some?
              && r.sent.value.content == Protocol.File(io.basename(cmd.path), io.readFile(cmd.path).value)
    ensures cmd.Image? && r.sent.Some? ==>
              io.readImage(cmd.path).Some? && r.sent.value.content == Protocol.Image(io.readImage(cmd.path).value)
    ensures r.result == Err(FileOperationFailed) <==> ReadFails(cmd, io)
    ensures r.sent.Some? <==> cmd != Quit && !ReadFails(cmd, io) && io.sendOk
    ensures r.result == Err(SendFailed) <==> cmd != Quit && !ReadFails(cmd, io) && !io.sendOk
  {
    match cmd
    case Text(text) => SendMessage(username, Protocol.Text(text), io)
    case Image(path) =>
      (match io.readImage(path)
       case None => Performed(Err(FileOperationFailed), None)
       case Some(data) => SendMessage(username, Protocol.Image(data), io))
    case File(path) =>
      (match io.readFile(path)
       case None => Performed(Err(FileOperationFailed), None)
       case Some(data) => SendMessage(username, Protocol.File(io.basename(path), data), io))
    case Quit => Performed(Ok(true), None)
  }

  /** How the keyboard loop ended, and the messages it wrote. */
  datatype Session = Session(result: Result<(), ClientError>, sent: seq<Protocol.ChatMessage>)

  /** A command result after which the keyboard loop reads on. */
  predicate Proceeds(p: Performed)
  {
    p.result == Ok(false) || p.result == Err(FileOperationFailed)
  }

  /**
    The loop of `keyboard_loop` over the successive reads of stdin, each
    handled by `outcome`: an empty read (the end of input) and `Ok(true)`
    end it with `Ok`, a failed file operation is reported and the loop
    goes on, and any other error ends it.
  */
  function RunLines(lines: seq<string>, outcome: string -> Performed): (r: Session)
    ensures |lines| == 0 || lines[0] == [] ==> r == Session(Ok(()), [])
    ensures |lines| > 0 && lines[0] != [] && outcome(lines[0]).result == Ok(true) ==> r == Session(Ok(()), [])
    ensures r.result.Err? ==>
              exists j :: 0 <= j < |lines| && outcome(lines[j]).result == Err(r.result.error)
                          && r.result.error != FileOperationFailed
    ensures forall m :: m in r.sent ==> exists j :: 0 <= j < |lines| && outcome(lines[j]).sent == Some(m)
    ensures |r.sent| <= |lines|
    decreases |lines|
  {
    if |lines| == 0 || lines[0] == [] then Session(Ok(()), [])
    else
      var p := outcome(lines[0]);
      if p.result == Err(FileOperationFailed) then
        var rest := RunLines(lines[1..], outcome);
        assert forall j :: 0 <= j < |lines[1..]| ==> lines[1..][j] == lines[j + 1];
        rest
      else if p.result.Err? then Session(Err(p.result.error), [])
      else if p.result.value then Session(Ok(()), [])
      else
        var rest := RunLines(lines[1..], outcome);
        assert forall j :: 0 <= j < |lines[1..]| ==> lines[1..][j] == lines[j + 1];
        Session(rest.result, (if p.sent.Some? then [p.sent.value] else []) + rest.sent)
  }

  /** What the client does with one typed line: the trimmed line parsed and performed. */
  function Typed(username: string, io: ClientIo): string -> Performed
  {
    line => Outcome(username, line, io)
  }

  function Outcome(username: string, line: string, io: ClientIo): Performed
  {
    Perform(FromStr(Trim(line)), username, io)
  }

  /**
    `keyboard_loop` over the successive reads of stdin (each read is the raw
    buffer, newline included; an empty read is the end of input).  `.quit`
    and the end of input end it with `Ok`; the only error that ends it is a
    failed send; every message it sends carries the username.
  */
  function KeyboardLoop(username: string, lines: seq<string>, io: ClientIo): (r: Session)
    ensures |lines| == 0 || lines[0] == [] ==> r == Session(Ok(()), [])
    ensures |lines| > 0 && lines[0] != [] && Trim(lines[0]) == ".quit" ==> r == Session(Ok(()), [])
    ensures r.result.Err? ==> r.result.error == SendFailed && !io.sendOk
    ensures forall m :: m in r.sent ==> m.sender == username
    ensures |r.sent| <= |lines|
  {
    TypedLoopSendsAsUser(username, lines, io);
    RunLines(lines, Typed(username, io))
  }

  /** What `Perform` promises about one typed line, in the terms the loop needs. */
  lemma OutcomeFacts(username: string, line: string, io: ClientIo)
    ensures var p := Typed(username, io)(line);
            && (p.sent.Some? ==> p.sent.value.sender == username)
            && (p.result.Err? && p.result.error != FileOperationFailed ==> p.result.error == SendFailed && !io.sendOk)
            && (FromStr(Trim(line)) == Quit ==> p.result == Ok(true))
  {
    assert Typed(username, io)(line) == Outcome(username, line, io);
  }

  /** The facts `KeyboardLoop` promises, drawn from what `Perform` promises for the line that ended or fed the loop. */
  lemma TypedLoopSendsAsUser(username: string, lines: seq<string>, io: ClientIo)
    ensures var r := RunLines(lines, Typed(username, io));
            && (r.result.Err? ==> r.result.error == SendFailed && !io.sendOk)
            && (forall m :: m in r.sent ==> m.sender == username)
            && (|lines| > 0 && lines[0] != [] && Trim(lines[0]) == ".quit" ==> r == Session(Ok(()), []))
  {
    var outcome := Typed(username, io);
    var r := RunLines(lines, outcome);
    if r.result.Err? {
      var j :| 0 <= j < |lines| && outcome(lines[j]).result == Err(r.result.error) && r.result.error != FileOperationFailed;
      OutcomeFacts(username, lines[j], io);
    }
    forall m | m in r.sent
      ensures m.sender == username
    {
      var j :| 0 <= j < |lines| && outcome(lines[j]).sent == Some(m);
      OutcomeFacts(username, lines[j], io);
    }
    if |lines| > 0 {
      OutcomeFacts(username, lines[0], io);
      FromStrQuit(Trim(lines[0]));
    }
  }

  /** The keyboard loop goes past this line: it is not the end of input, and its command neither quits nor fails to send. */
  predicate Continues(line: string, outcome: string -> Performed)
  {
    line != [] && Proceeds(outcome(line))
  }

  /** The index of the first line the loop stops at, or the number of lines when it reads them all. */
  function Stop(lines: seq<string>, outcome: string -> Performed): (n: nat)
    ensures n <= |lines|
    ensures forall j :: 0 <= j < n ==> Continues(lines[j], outcome)
    ensures n < |lines| ==> !Continues(lines[n], outcome)
    decreases |lines|
  {
    if |lines| == 0 || !Continues(lines[0], outcome) then 0
    else
      var m := Stop(lines[1..], outcome);
      assert forall j :: 1 <= j <= m ==> lines[1..][j - 1] == lines[j];
      assert 1 + m < |lines| ==> lines[1..][m] == lines[1 + m];
      1 + m
  }

  /** The messages the given lines send, in order. */
  function SentBy(lines: seq<string>, outcome: string -> Performed): seq<Protocol.ChatMessage>
    decreases |lines|
  {
    if |lines| == 0 then []
    else
      var p := outcome(lines[0]);
      (if p.sent.Some? && p.result == Ok(false) then [p.sent.value] else []) + SentBy(lines[1..], outcome)
  }

  /**
    The loop handles the lines up to the first one that stops it and sends
    exactly the messages those lines send, in order; it fails exactly when
    that line's command failed, with that command's error.
  */
  lemma {:induction false} RunLinesSends(lines: seq<string>, outcome: string -> Performed)
    ensures var n := Stop(lines, outcome);
            var r := RunLines(lines, outcome);
            && r.sent == SentBy(lines[..n], outcome)
            && (r.result.Err? <==> n < |lines| && lines[n] != [] && outcome(lines[n]).result.Err?)
            && (r.result.Err? ==> r.result == Err(outcome(lines[n]).result.error))
    decreases |lines|
  {
    var n := Stop(lines, outcome);
    if |lines| > 0 && Continues(lines[0], outcome) {
      var p := outcome(lines[0]);
      var rest := RunLines(lines[1..], outcome);
      RunLinesSends(lines[1..], outcome);
      assert n == 1 + Stop(lines[1..], outcome);
      assert RunLines(lines, outcome) == Session(rest.result, (if p.sent.Some? && p.result == Ok(false) then [p.sent.value] else []) + rest.sent);
      assert lines[..n][0] == lines[0];
      assert lines[..n][1..] == lines[1..][..n - 1];
    }
  }

  /** A failed file read neither stops the loop nor sends anything. */
  lemma {:induction false} FileFailureContinues(username: string, line: string, lines: seq<string>, io: ClientIo)
    requires line != []
    requires Perform(FromStr(Trim(line)), username, io).result == Err(FileOperationFailed)
    ensures KeyboardLoop(username, [line] + lines, io) == KeyboardLoop(username, lines, io)
  {
    RunLinesSkips(line, lines, Typed(username, io));
  }

  /** A line whose file operation failed is skipped by the loop. */
  lemma {:induction false} RunLinesSkips(line: string, lines: seq<string>, outcome: string -> Performed)
    requires line != [] && outcome(line).result == Err(FileOperationFailed)
    ensures RunLines([line] + lines, outcome) == RunLines(lines, outcome)
  {
    assert ([line] + lines)[1..] == lines;
  }

  /** The login check of `start_client`: only a `LoginOk` response lets the client in. */
  function LoginReply(reply: Result<Protocol.Datagram, ProtocolError>): (r: Result<(), ClientError>)
    ensures r.Ok? <==> reply == Ok(Protocol.Response(Protocol.LoginOk))
    ensures reply.Err? ==> r == Err(ServerReadFailed(reply.error))
    ensures reply.Ok? && r.Err? ==> r.error == LoginFailed
  {
    match reply
    case Err(e) => Err(ServerReadFailed(e))
    case Ok(d) => if d == Protocol.Response(Protocol.LoginOk) then Ok(()) else Err(LoginFailed)
  }
}
