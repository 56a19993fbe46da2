/**
 * The client's interaction loop (client/.../ClientHandler.java with the
 * one-shot command handlers of nio/.../AbstractDuplexCommandPayloadHandler.java).
 * Each scheduled read takes one line. "exit" or the end of input shuts the
 * client down, and "help" prints help. Any other line is parsed and
 * executed with a promise; the handler of an executed command waits in the
 * pipeline as "commandHandler" for one reply. When the promise completes,
 * a listener removes a failed command's handler and schedules the next
 * read.
 *
 * As written, the loop stops reading after "help", and after a failure
 * that leaves no handler to remove. The ClientHandler class follows the
 * corrected loop; SendCommandAsWritten keeps the code as written.
 */
module ClientLoop {
  import opened Wrappers
  import opened Bytes
  import opened JStrings
  import opened Commands
  import opened Frames
  import opened Paths
  import opened ClientCommands
  import opened ClientRouting
  import ClientDownload

  const UNKNOWN_COMMAND_PASSED: JString := "Unknown command passed."
  /** DefaultChannelPipeline's refusal of a second handler named "commandHandler". */
  const DUPLICATE_HANDLER: JString := "Duplicate handler name: commandHandler"

  /** The lines printHelp prints. */
  const HELP: seq<JString> := [
    "<> means that you are not signed in yet.",
    "<username> means your username.",
    "Available commands:",
    "ping words...",
    "\tServer will reply with the same message",
    "time",
    "\tGet the server time",
    "signUp login password",
    "\tTry to sign up on the server with passed login and password.",
    "signIn login password",
    "\tTry to sign in on the server with passed login and password.",
    "signOut",
    "\tSign out from server.",
    "exit",
    "\tShutdown client",
    "help",
    "\tShow this message"
  ]

  /**
   * The client's state: the working directory shown in the prompt, the
   * command whose handler waits for a reply, whether a read of the next
   * line is scheduled, whether the channel is open, and the DOWNLOAD
   * handler's pending save path.
   */
  datatype Client = Client(
    workingDirectory: Option<JString>,
    pending: Option<Cmd>,
    reading: bool,
    open: bool,
    save: Option<Path>)

  /** After channelActive: nothing pending, the first read scheduled. */
  const INITIAL: Client := Client(None, None, true, true, None)

  /** No MESSAGE handler ever waits: the registry has none. */
  predicate Valid(c: Client)
  {
    c.pending != Some(Message)
  }

  /** What the client's surroundings decide: the local files, the home directory, and what saving a download does. */
  datatype World = World(files: JString -> LocalFile, home: Path, saving: ClientDownload.SaveOutcome)

  /** One read: the client after it, what it shows, and the request it sends, if any. */
  datatype Step = Step(client: Client, shown: seq<Display>, sent: Option<Payload>)

  /** The prompt: the working directory between angle brackets, nothing between them when there is none. */
  function Prompt(workingDirectory: Option<JString>): (r: JString)
    ensures |r| >= 3 && r[0] == '<' && r[|r| - 2..] == ">:"
    ensures workingDirectory.None? ==> r == "<>:"
    ensures workingDirectory.Some? ==> r[1..|r| - 2] == workingDirectory.value
  {
    "<" + (if workingDirectory.None? then "" else workingDirectory.value) + ">:"
  }

  /** shutdown: the channel is closed and the executor stops, so no read follows. */
  function Shutdown(c: Client): (r: Client)
    ensures !r.reading && !r.open
  {
    c.(reading := false, open := false)
  }

  /**
   * executeCommand: a command with no handler, or a second command while
   * one waits, fails; otherwise the command's handler is added to the
   * pipeline and its execute decides the request.
   */
  function ExecuteCommandResult(c: Client, cmd: Cmd, args: seq<JString>, w: World): (r: (Client, Request))
    ensures cmd == Message ==> r == (c, Refused(Runtime(UNKNOWN_COMMAND_PASSED)))
    ensures cmd != Message && c.pending.Some? ==> r == (c, Refused(Runtime(DUPLICATE_HANDLER)))
    ensures cmd != Message && c.pending.None? ==> r.0.pending == Some(cmd)
    ensures r.1.Write? ==> r.1.payload.cmd == cmd
    ensures cmd != Download ==> r.0.save == c.save
    ensures r.0.(pending := c.pending, save := c.save) == c
    ensures c.pending.None? && cmd == Download ==>
      (r.0.save, r.1) == ClientDownload.ExecuteResult(c.save, args)
    ensures c.pending.None? && cmd == Upload ==> r.1 == UploadRequest(args, w.files)
    ensures c.pending.None? && cmd == Move ==> r.1 == MoveRequest(args)
    ensures c.pending.None? && InTable(cmd) ==> r.1 == TableExecute(cmd, args)
  {
    if cmd == Message then (c, Refused(Runtime(UNKNOWN_COMMAND_PASSED)))
    else if c.pending.Some? then (c, Refused(Runtime(DUPLICATE_HANDLER)))
    else
      var added := c.(pending := Some(cmd));
      match cmd
      case Download =>
        var (save, request) := ClientDownload.ExecuteResult(c.save, args);
        (added.(save := save), request)
      case Upload => (added, UploadRequest(args, w.files))
      case Move => (added, MoveRequest(args))
      case Ping | Time | SignUp | SignIn | SignOut => (added, TableExecute(cmd, args))
  }

  /** The promise's task: parseCommand, then executeCommand. */
  function SubmitResult(c: Client, line: JString, w: World): (r: (Client, Request))
    ensures ParseCommand(line).Err? ==> r == (c, Refused(ParseCommand(line).error))
    ensures r.1.Write? ==>
      && ParseCommand(line).Ok?
      && r.1.payload.cmd == ParseCommand(line).value.0
      && c.pending.None?
      && r.0.pending == Some(r.1.payload.cmd)
  {
    match ParseCommand(line)
    case Err(e) => (c, Refused(e))
    case Ok((cmd, args)) => ExecuteCommandResult(c, cmd, args, w)
  }

  /**
   * sendNextCommand: a failed command's handler is removed, and the next
   * read is scheduled. Removal happens only when a handler waits.
   */
  function Listener(c: Client, failed: bool): (r: Client)
    ensures r.reading
    ensures r.pending == (if failed then None else c.pending)
  {
    (if failed then c.(pending := None) else c).(reading := true)
  }

  /**
   * sendNextCommand as written: pipeline.remove("commandHandler") throws
   * when no handler waits, and the promise swallows the exception before
   * sendCommand is reached.
   */
  function ListenerAsWritten(c: Client, failed: bool): (r: Client)
    ensures !r.reading <==> failed && c.pending.None? && !c.reading
  {
    if failed && c.pending.None? then c
    else if failed then c.(pending := None, reading := true)
    else c.(reading := true)
  }

  /**
   * sendCommand, corrected: prints the prompt and reads a line. The end of
   * input or "exit" shuts down, "help" prints help and reads again, and any
   * other line is submitted; the listener follows the promise.
   */
  function SendCommandResult(c: Client, line: Option<JString>, w: World): (r: Step)
    ensures |r.shown| >= 1 && r.shown[0] == Text(Prompt(c.workingDirectory))
    ensures line == Some("help") ==> r.shown == [Text(Prompt(c.workingDirectory))] + Texts(HELP) && r.sent.None?
    ensures r.sent.Some? ==> c.pending.None? && r.client.pending == Some(r.sent.value.cmd)
    ensures r.client.workingDirectory == c.workingDirectory
  {
    var prompt := Text(Prompt(c.workingDirectory));
    var waiting := c.(reading := false);
    if line.None? || line.value == "exit" then Step(Shutdown(waiting), [prompt], None)
    else if line.value == "help" then Step(waiting.(reading := true), [prompt] + Texts(HELP), None)
    else
      var (submitted, request) := SubmitResult(waiting, line.value, w);
      match request
      case Write(p) => Step(Listener(submitted, false), [prompt], Some(p))
      case Refused(_) => Step(Listener(submitted, true), [prompt], None)
  }

  /** sendCommand as written: "help" returns without scheduling a read, and the listener is the one as written. */
  function SendCommandAsWritten(c: Client, line: Option<JString>, w: World): (r: Step)
    ensures r.sent == SendCommandResult(c, line, w).sent && r.shown == SendCommandResult(c, line, w).shown
    ensures line == Some("help") ==> !r.client.reading
  {
    var prompt := Text(Prompt(c.workingDirectory));
    var waiting := c.(reading := false);
    if line.None? || line.value == "exit" then Step(Shutdown(waiting), [prompt], None)
    else if line.value == "help" then Step(waiting, [prompt] + Texts(HELP), None)
    else
      var (submitted, request) := SubmitResult(waiting, line.value, w);
      match request
      case Write(p) => Step(ListenerAsWritten(submitted, false), [prompt], Some(p))
      case Refused(_) => Step(ListenerAsWritten(submitted, true), [prompt], None)
  }

  function Texts(lines: seq<JString>): (r: seq<Display>)
    ensures |r| == |lines| && forall i :: 0 <= i < |r| ==> r[i] == Text(lines[i])
  {
    seq(|lines|, i requires 0 <= i < |lines| => Text(lines[i]))
  }

  /** The working directory after a reply's effect: signIn records the login, signing out forgets it. */
  function AfterEffect(workingDirectory: Option<JString>, e: Effect): Option<JString>
  {
    match e
    case Keep => workingDirectory
    case SignedIn(login) => Some(login)
    case SignedOut => None
  }

  /**
   * A reply arriving: with no handler waiting it reaches ClientHandler,
   * which ignores it. A waiting handler takes it: its command's reply goes
   * to handle0, any other is passed on and ignored, and the handler
   * removes itself. What handle0 shows is printed with a new prompt; an
   * exception from it shuts the client down.
   */
  function ChannelReadResult(c: Client, p: Payload, w: World): (r: (Client, seq<Display>))
    requires Valid(c)
    ensures c.pending != Some(Download) || p.cmd != Download ==> r.0.save == c.save
    ensures r.1 != [] ==> c.pending == Some(p.cmd)
    ensures c.pending == Some(p.cmd) && p.cmd != Download ==>
      var h := HandleReply(p.cmd, p.body);
      && (h.Err? ==> r == (Shutdown(c), []))
      && (h.Ok? ==> r.0 == c.(workingDirectory := AfterEffect(c.workingDirectory, h.value.effect), pending := None))
      && (h.Ok? && h.value.shown.None? ==> r.1 == [])
      && (h.Ok? && h.value.shown.Some? ==> r.1 == [h.value.shown.value, Text(Prompt(r.0.workingDirectory))])
    ensures c.pending == Some(Download) && p.cmd == Download ==>
      var (save, result) := ClientDownload.HandleResult(c.save, p.body, w.home, w.saving);
      && (result.Err? ==> r == (Shutdown(c), []))
      && (result.Ok? ==> r == (c.(pending := None, save := save), [Text(result.value), Text(Prompt(c.workingDirectory))]))
  {
    if c.pending.None? then (c, [])
    else if p.cmd != c.pending.value then (c.(pending := None), [])
    else if p.cmd == Download then
      var (save, result) := ClientDownload.HandleResult(c.save, p.body, w.home, w.saving);
      match result
      case Err(_) => (Shutdown(c), [])
      case Ok(text) => (c.(pending := None, save := save), [Text(text), Text(Prompt(c.workingDirectory))])
    else
      match HandleReply(p.cmd, p.body)
      case Err(_) => (Shutdown(c), [])
      case Ok(h) =>
        var wd := AfterEffect(c.workingDirectory, h.effect);
        (c.(workingDirectory := wd, pending := None),
         if h.shown.None? then [] else [h.shown.value, Text(Prompt(wd))])
  }

  /**
   * The ClientHandler object: the working directory, the pipeline's
   * "commandHandler" slot, the scheduled read and the channel as fields,
   * and the DOWNLOAD handler instance of its registry.
   */
  class ClientHandler {
    var workingDirectory: Option<JString>
    var pending: Option<Cmd>
    var reading: bool
    var open: bool
    const downloads: ClientDownload.DownloadHandler

    function Model(): Client
      reads this, downloads
    {
      Client(workingDirectory, pending, reading, open, downloads.currentSaveFilePath)
    }

    constructor()
      ensures Model() == INITIAL
    {
      workingDirectory := None;
      pending := None;
      reading := true;
      open := true;
      downloads := new ClientDownload.DownloadHandler();
    }

    method ExecuteCommand(cmd: Cmd, args: seq<JString>, w: World) returns (r: Request)
      requires Valid(Model())
      modifies this, downloads
      ensures Valid(Model())
      ensures (Model(), r) == ExecuteCommandResult(old(Model()), cmd, args, w)
    {
      if cmd == Message {
        return Refused(Runtime(UNKNOWN_COMMAND_PASSED));
      }
      if pending.Some? {
        return Refused(Runtime(DUPLICATE_HANDLER));
      }
      pending := Some(cmd);
      match cmd {
        case Download => r := downloads.Execute(args);
        case Upload => r := UploadRequest(args, w.files);
        case Move => r := MoveRequest(args);
        case Ping | Time | SignUp | SignIn | SignOut => r := TableExecute(cmd, args);
      }
    }

    /** One scheduled read of `line` (None: the end of input). */
    method SendCommand(line: Option<JString>, w: World) returns (shown: seq<Display>, sent: Option<Payload>)
      requires Valid(Model())
      modifies this, downloads
      ensures Valid(Model())
      ensures Step(Model(), shown, sent) == SendCommandResult(old(Model()), line, w)
    {
      shown := [Text(Prompt(workingDirectory))];
      reading := false;
      sent := None;
      if line.None? || line.value == "exit" {
        open := false;
        return;
      }
      if line.value == "help" {
        shown := shown + Texts(HELP);
        reading := true;
        return;
      }
      var request := Submit(line.value, w);
      if request.Write? {
        sent := Some(request.payload);
      } else {
        pending := None;
      }
      reading := true;
    }

    /** The promise's task: parseCommand, then executeCommand. */
    method Submit(line: JString, w: World) returns (r: Request)
      requires Valid(Model())
      modifies this, downloads
      ensures Valid(Model())
      ensures (Model(), r) == SubmitResult(old(Model()), line, w)
    {
      var parsed := ParseCommand(line);
      if parsed.Err? {
        return Refused(parsed.error);
      }
      r := ExecuteCommand(parsed.value.0, parsed.value.1, w);
    }

    /** A reply `p` reaching the pipeline. */
    method ChannelRead(p: Payload, w: World) returns (shown: seq<Display>)
      requires Valid(Model())
      modifies this, downloads
      ensures Valid(Model())
      ensures (Model(), shown) == ChannelReadResult(old(Model()), p, w)
    {
      shown := [];
      if pending.None? {
        return;
      }
      if p.cmd != pending.value {
        pending := None;
        return;
      }
      if p.cmd == Download {
        var result := downloads.Handle0(p.body, w.home, w.saving);
        if result.Err? {
          reading, open := false, false;
          return;
        }
        pending := None;
        shown := [Text(result.value), Text(Prompt(workingDirectory))];
        return;
      }
      var handled := HandleReply(p.cmd, p.body);
      if handled.Err? {
        reading, open := false, false;
        return;
      }
      workingDirectory := AfterEffect(workingDirectory, handled.value.effect);
      pending := None;
      if handled.value.shown.Some? {
        shown := [handled.value.shown.value, Text(Prompt(workingDirectory))];
      }
    }
  }

  // ---------------------------------------------------------------------
  // Properties

  /** No read lets a MESSAGE handler wait. */
  lemma SendCommandKeepsValid(c: Client, line: Option<JString>, w: World)
    requires Valid(c)
    ensures Valid(SendCommandResult(c, line, w).client)
  {
  }

  /** No reply lets a MESSAGE handler wait. */
  lemma ChannelReadKeepsValid(c: Client, p: Payload, w: World)
    requires Valid(c)
    ensures Valid(ChannelReadResult(c, p, w).0)
  {
  }

  /**
   * The corrected loop reads on after every line except "exit" and the end
   * of input, which close the channel; a line never closes it otherwise.
   */
  lemma KeepsReading(c: Client, line: Option<JString>, w: World)
    ensures var r := SendCommandResult(c, line, w).client;
      && (r.reading <==> line.Some? && line.value != "exit")
      && (r.open <==> c.open && line.Some? && line.value != "exit")
  {
  }

  /**
   * The loop as written and corrected differ only on "help", and on a
   * failed command that left no handler to remove: a line that does not
   * parse, or MESSAGE. After those the loop as written stops reading
   * though the channel stays open.
   */
  lemma AsWrittenDiffers(c: Client, line: JString, w: World)
    requires line != "exit"
    ensures var waiting := c.(reading := false);
      var stalls := line == "help" || (SubmitResult(waiting, line, w).1.Refused? && SubmitResult(waiting, line, w).0.pending.None?);
      && (!stalls ==> SendCommandAsWritten(c, Some(line), w) == SendCommandResult(c, Some(line), w))
      && (stalls ==> !SendCommandAsWritten(c, Some(line), w).client.reading)
      && SendCommandAsWritten(c, Some(line), w).client.open == c.open
  {
    var waiting := c.(reading := false);
    if line != "help" {
      var (submitted, request) := SubmitResult(waiting, line, w);
      assert submitted.open == c.open;
      if request.Write? {
        assert ListenerAsWritten(submitted, false) == Listener(submitted, false);
      } else if submitted.pending.Some? {
        assert ListenerAsWritten(submitted, true) == Listener(submitted, true);
      }
    }
  }

  /** A failed submission with nothing pending is a parse failure or MESSAGE: an executed handler is always there to remove. */
  lemma RefusedWithoutHandler(c: Client, line: JString, w: World)
    requires c.pending.None?
    ensures var (s, request) := SubmitResult(c, line, w);
      request.Refused? && s.pending.None? <==>
        ParseCommand(line).Err? || ParseCommand(line).value.0 == Message
  {
  }

  /** Pressing Enter on an empty line stops the loop as written: the line does not parse and no handler waits. */
  lemma BlankLineStalls(w: World)
    ensures var r := SendCommandAsWritten(INITIAL, Some(""), w);
      !r.client.reading && r.client.open && r.sent.None?
    ensures SendCommandResult(INITIAL, Some(""), w).client.reading
  {
    ParseCommandCharacterised("");
    assert Strip("") == [];
  }

  /** "help" stops the loop as written; corrected, the next line is read. */
  lemma HelpStalls(w: World)
    ensures var r := SendCommandAsWritten(INITIAL, Some("help"), w);
      !r.client.reading && r.client.open && r.shown == [Text("<>:")] + Texts(HELP)
    ensures SendCommandResult(INITIAL, Some("help"), w).client.reading
  {
  }

  /**
   * The command handler is one-shot: after any reply no handler waits,
   * unless the reply made its handler throw, which shuts the client down.
   * A reply with no handler waiting changes nothing and shows nothing.
   */
  lemma OneShot(c: Client, p: Payload, w: World)
    requires Valid(c)
    ensures var (r, shown) := ChannelReadResult(c, p, w);
      && (r.pending.None? || (!r.open && !r.reading))
      && (c.pending.None? ==> r == c && shown == [])
      && (c.pending.Some? && p.cmd != c.pending.value ==> r == c.(pending := None) && shown == [])
  {
  }

  /** A SIGN_OUT reply forgets the working directory and shows "Signed out" with the bare prompt. */
  lemma SignOutReplyForgets(c: Client, body: Option<seq<byte>>, w: World)
    requires c.pending == Some(SignOut)
    ensures var (r, shown) := ChannelReadResult(c, Payload(SignOut, body), w);
      r.workingDirectory.None? && r.pending.None? && shown == [Text(SIGNED_OUT), Text("<>:")]
  {
  }

  /** A reply shows its line and then the prompt, built from the working directory the reply left. */
  lemma PromptFollowsReply(c: Client, p: Payload, w: World)
    requires Valid(c)
    ensures var (r, shown) := ChannelReadResult(c, p, w);
      shown == [] || (|shown| == 2 && shown[1] == Text(Prompt(r.workingDirectory)))
  {
  }
}
