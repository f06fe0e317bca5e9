/**
  The command line of the first chat client (`hw-05`): each typed line is
  dispatched to a command that may send one message or end the process.
  Reading files, `basename` and the socket write are oracles; `exit` is an
  outcome value.
*/
module Hw05Client {
  import opened Wrappers
  import opened Framing
  import opened Protocol
  import opened Text

  /** The client's file system, `basename`, and the state of its connection. */
  datatype Io = Io(readFile: string -> Option<seq<Byte>>, basename: string -> string, writeOk: bool)

  /** What handling one line did: the message written, if any, and the exit code, if the process ends. */
  datatype Step = Step(sent: Option<ChatMessage>, exit: Option<int>)

  /** `send_message`: a failed write ends the client with status 1. */
  function SendMessage(message: ChatMessage, io: Io): (r: Step)
    ensures r.sent.Some? <==> io.writeOk
    ensures r.sent.Some? ==> r.sent.value == message && r.exit.None?
    ensures !io.writeOk ==> r.exit == Some(1)
    ensures r.exit != Some(0)
  {
    if io.writeOk then Step(Some(message), None) else Step(None, Some(1))
  }

  /**
    `cmd_send_file_image`: an image is sent as its raw bytes, a file with its
    base name; a file that cannot be read is reported and nothing is sent.
  */
  function SendFileOrImage(nickname: string, filename: string, isImage: bool, io: Io): (r: Step)
    ensures io.readFile(filename).None? ==> r == Step(None, None)
    ensures r.sent.Some? ==> r.sent.value.sender == nickname && io.readFile(filename).Some?
    ensures r.sent.Some? && isImage ==> r.sent.value.content == Image(io.readFile(filename).value)
    ensures r.sent.Some? && !isImage ==> r.sent.value.content == File(io.basename(filename), io.readFile(filename).value)
    ensures io.readFile(filename).Some? ==> (r.sent.Some? <==> io.writeOk)
    ensures io.readFile(filename).Some? && !io.writeOk ==> r.exit == Some(1)
    ensures r.sent.Some? ==> r.exit.None?
    ensures r.exit != Some(0)
  {
    match io.readFile(filename)
    case None => Step(None, None)
    case Some(data) =>
      var content := if isImage then Image(data) else File(io.basename(filename), data);
      SendMessage(ChatMessage(nickname, content), io)
  }

  /** `cmd_send_text`: the line goes out as text under the nickname. */
  function SendText(nickname: string, text: string, io: Io): (r: Step)
    ensures r.sent.Some? <==> io.writeOk
    ensures r.sent.Some? ==> r.sent.value == ChatMessage(nickname, Text(text)) && r.exit.None?
    ensures !io.writeOk ==> r.exit == Some(1)
    ensures r.exit != Some(0)
  {
    SendMessage(ChatMessage(nickname, Text(text)), io)
  }

  /** What `process_command` decides to do with a line. */
  datatype Action = Ignore | Quit | SendFile(filename: string, isImage: bool) | SendLine(text: string)

  /** The match of `process_command` on `line + " "` split at its first space. */
  function ParseLine(line: string): Action
  {
    match SplitOnce(line + [' '], ' ')
    case Some((word, rest)) =>
      if word == "" && rest == [] then Ignore
      else if word == ".quit" && rest == [] then Quit
      else if word == ".file" then SendFile(Trim(rest), false)
      else if word == ".image" then SendFile(Trim(rest), true)
      else SendLine(line)
    case None => SendLine(line)
  }

  /** Only the empty line is ignored. */
  lemma ParseLineIgnore(line: string)
    ensures ParseLine(line) == Ignore <==> line == []
  {
    SplitAtFirstSpace(line, "");
  }

  /** Exactly `.quit` quits: `.quit` followed by anything is sent as text. */
  lemma ParseLineQuit(line: string)
    ensures ParseLine(line) == Quit <==> line == ".quit"
  {
    SplitAtFirstSpace(line, ".quit");
    if line == ".quit" {
      assert ' ' !in line by { assert forall j :: 0 <= j < |line| ==> line[j] != ' '; }
    }
  }

  /** `.file X` names the trimmed text after the first space; a bare `.file` names the empty path. */
  lemma ParseLineFile(line: string)
    ensures (ParseLine(line).SendFile? && !ParseLine(line).isImage) <==> line == ".file" || ".file " <= line
    ensures line == ".file" ==> ParseLine(line) == SendFile([], false)
    ensures ".file " <= line ==> ParseLine(line) == SendFile(Trim(line[6..]), false)
  {
    SplitAtFirstSpace(line, ".file");
    var parts := SplitOnce(line + [' '], ' ').value;
    if ".file " <= line {
      assert line[6..] + [' '] == parts.1;
      TrimDropsTrailingSpace(line[6..]);
    }
  }

  /** `.image X` names the trimmed text after the first space; a bare `.image` names the empty path. */
  lemma ParseLineImage(line: string)
    ensures (ParseLine(line).SendFile? && ParseLine(line).isImage) <==> line == ".image" || ".image " <= line
    ensures line == ".image" ==> ParseLine(line) == SendFile([], true)
    ensures ".image " <= line ==> ParseLine(line) == SendFile(Trim(line[7..]), true)
  {
    SplitAtFirstSpace(line, ".image");
    var parts := SplitOnce(line + [' '], ' ').value;
    if ".image " <= line {
      assert line[7..] + [' '] == parts.1;
      TrimDropsTrailingSpace(line[7..]);
    }
  }

  /** Any line that is not a command goes out whole, as text. */
  lemma ParseLineText(line: string)
    ensures ParseLine(line).SendLine? <==>
              line != [] && line != ".quit" && line != ".file" && line != ".image" && !(".file " <= line) && !(".image " <= line)
    ensures ParseLine(line).SendLine? ==> ParseLine(line).text == line
  {
    ParseLineIgnore(line);
    ParseLineQuit(line);
    ParseLineFile(line);
    ParseLineImage(line);
  }

  /**
    `process_command`: nothing happens on an ignored line, `.quit` ends the
    client with status 0 and nothing else does, `.file` and `.image` hand the
    trimmed path to `cmd_send_file_image`, and every message sent carries the
    nickname; text goes out as the parsed text, and a failed write ends the
    client with status 1.
  */
  function ProcessCommand(nickname: string, line: string, io: Io): (r: Step)
    ensures ParseLine(line) == Ignore ==> r == Step(None, None)
    ensures ParseLine(line) == Quit ==> r == Step(None, Some(0))
    ensures r.exit == Some(0) <==> ParseLine(line) == Quit
    ensures r.sent.Some? ==> r.sent.value.sender == nickname
    ensures ParseLine(line).SendLine? ==>
              (r.sent.Some? <==> io.writeOk) && (r.sent.Some? ==> r.sent.value.content == Text(ParseLine(line).text))
    ensures ParseLine(line).SendLine? && !io.writeOk ==> r.exit == Some(1)
    ensures ParseLine(line).SendFile? ==>
              r == SendFileOrImage(nickname, ParseLine(line).filename, ParseLine(line).isImage, io)
    ensures r.sent.Some? ==> r.exit.None?
  {
    var action := ParseLine(line);
    match action
    case Ignore => Step(None, None)
    case Quit => Step(None, Some(0))
    case SendFile(filename, isImage) => SendFileOrImage(nickname, filename, isImage, io)
    case SendLine(text) => SendText(nickname, text, io)
  }
}
