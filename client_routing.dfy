/**
 * How the client routes a command line and a reply. A line is split into a
 * command and its arguments (client/.../CommandParser.java and
 * ClientHandler.parseCommand). ChannelCommandHandler sends a parsed command
 * to its handler's execute, and ChannelPayloadHandler sends a reply to its
 * handler's handle. Both tables hold the same five commands.
 */
module ClientRouting {
  import opened Wrappers
  import opened Bytes
  import opened JStrings
  import opened Commands
  import opened Frames
  import opened TimeDataCodec
  import opened ClientCommands

  const WRONG_INPUT: JString := "Wrong input. Please enter space-separated command and arguments"
  const UNKNOWN_COMMAND: JString := "Unknown command."
  const CANT_HANDLE: JString := "Cant handle command "
  const SIGNED_OUT: JString := "Signed out"

  /**
   * Both parsers: the stripped line split on runs of whitespace; the first
   * word must name a command, the others are its arguments.
   */
  function ParseCommand(line: JString): (r: Result<(Cmd, seq<JString>), Exception>)
    ensures r.Err? ==> r.error == Runtime(UNKNOWN_COMMAND) || r.error == Runtime(WRONG_INPUT)
  {
    var words := Words(line);
    if |words| < 1 then Err(Runtime(WRONG_INPUT))
    else
      match GetCmd(words[0])
      case Err(_) => Err(Runtime(UNKNOWN_COMMAND))
      case Ok(c) => Ok((c, words[1..]))
  }

  /** The messages an outbound handler sees: a typed line, a parsed command, or a request packet. */
  datatype Outbound = Line(text: JString) | CommandMessage(cmd: Cmd, args: seq<JString>) | Packet(payload: Payload)

  /** CommandParser.write: a line becomes a CommandMessage; anything else passes unchanged. */
  function CommandParserWrite(msg: Outbound): (r: Result<Outbound, Exception>)
    ensures !msg.Line? ==> r == Ok(msg)
    ensures msg.Line? ==> (r.Ok? <==> ParseCommand(msg.text).Ok?)
    ensures msg.Line? && r.Ok? ==>
      r.value == CommandMessage(ParseCommand(msg.text).value.0, ParseCommand(msg.text).value.1)
  {
    match msg
    case Line(text) =>
      (match ParseCommand(text)
       case Err(e) => Err(e)
       case Ok((c, args)) => Ok(CommandMessage(c, args)))
    case _ => Ok(msg)
  }

  /** The commands both tables hold. */
  predicate InTable(c: Cmd)
  {
    c == Ping || c == Time || c == SignUp || c == SignIn || c == SignOut
  }

  /** The execute of the handler each table entry holds. */
  function TableExecute(c: Cmd, args: seq<JString>): (r: Request)
    requires InTable(c)
    ensures r.Write? ==> r.payload.cmd == c
    ensures c == Ping || c == Time || c == SignOut ==> r.Write?
    ensures c == Ping ==> r == PingRequest(args)
    ensures c == Time ==> r == TimeRequest()
    ensures c == SignOut ==> r == SignOutRequest()
    ensures c == SignUp || c == SignIn ==> r == CredentialsRequest(c, args)
  {
    match c
    case Ping => PingRequest(args)
    case Time => TimeRequest()
    case SignOut => SignOutRequest()
    case _ => CredentialsRequest(c, args)
  }

  /**
   * ChannelCommandHandler.write: a command in the table is executed, one
   * outside it fails with "Cant handle command" and its name; any other
   * message passes unchanged.
   */
  function CommandHandlerWrite(msg: Outbound): (r: Result<Outbound, Exception>)
    ensures !msg.CommandMessage? ==> r == Ok(msg)
    ensures msg.CommandMessage? && !InTable(msg.cmd) ==> r == Err(Runtime(CANT_HANDLE + Name(msg.cmd)))
    ensures msg.CommandMessage? && r.Ok? ==> r.value.Packet? && r.value.payload.cmd == msg.cmd
    ensures msg.CommandMessage? && InTable(msg.cmd) && TableExecute(msg.cmd, msg.args).Write? ==>
      r == Ok(Outbound.Packet(TableExecute(msg.cmd, msg.args).payload))
    ensures msg.CommandMessage? && InTable(msg.cmd) && TableExecute(msg.cmd, msg.args).Refused? ==>
      r == Err(TableExecute(msg.cmd, msg.args).cause)
  {
    match msg
    case CommandMessage(c, args) =>
      if !InTable(c) then Err(Runtime(CANT_HANDLE + Name(c)))
      else
        (match TableExecute(c, args)
         case Write(p) => Ok(Outbound.Packet(p))
         case Refused(e) => Err(e))
    case _ => Ok(msg)
  }

  /** A line written down the outbound handlers: the parser first, then the command table. */
  function SendLine(line: JString): (r: Result<Outbound, Exception>)
    ensures ParseCommand(line).Err? ==> r == Err(ParseCommand(line).error)
    ensures r.Ok? ==> r.value.Packet? && InTable(r.value.payload.cmd)
  {
    match CommandParserWrite(Line(line))
    case Err(e) => Err(e)
    case Ok(m) => CommandHandlerWrite(m)
  }

  // ---------------------------------------------------------------------
  // Replies

  /** What a client shows: a line of text, or a time (its date format is not modelled). */
  datatype Display = Text(text: JString) | Clock(time: TimeData)

  /** What handling a reply changes besides the screen: the login is recorded or forgotten. */
  datatype Effect = Keep | SignedIn(login: JString) | SignedOut

  datatype Handled = Handled(shown: Option<Display>, effect: Effect)

  /**
   * The handle of each command's handler, except DOWNLOAD's, which keeps
   * state of its own. MOVE's shows nothing.
   */
  function HandleReply(c: Cmd, body: Option<seq<byte>>): (r: Result<Handled, Exception>)
    requires c != Download && c != Message
    ensures r.Ok? && r.value.effect.SignedIn? ==> c == SignIn
    ensures r.Ok? && r.value.effect.SignedOut? <==> c == SignOut
    ensures r.Ok? && r.value.shown.None? <==> c == Move
    ensures c == Ping || c == SignOut || c == Move ==> r.Ok?
    ensures c == Ping ==> r == Ok(Handled(Some(Text(PingShow(body))), Keep))
    ensures c == Time ==> (r.Ok? <==> TimeShow(body).Ok?)
    ensures c == Time && r.Ok? ==> r.value == Handled(Some(Clock(TimeShow(body).value)), Keep)
    ensures c == Time && r.Err? ==> r.error == TimeShow(body).error
    ensures c == SignIn ==> (r.Ok? <==> SignInShow(body).Ok?)
    ensures c == SignIn && r.Ok? ==>
      && r.value.shown == Some(Text(SignInShow(body).value.text))
      && (SignInShow(body).value.login.Some? ==> r.value.effect == SignedIn(SignInShow(body).value.login.value))
      && (SignInShow(body).value.login.None? ==> r.value.effect == Keep)
    ensures c == SignIn && r.Err? ==> r.error == SignInShow(body).error
    ensures c == SignOut ==> r == Ok(Handled(Some(Text(SIGNED_OUT)), SignedOut))
    ensures c == Move ==> r == Ok(Handled(None, Keep))
    ensures c == Upload || c == SignUp ==> (r.Ok? <==> TextOf(body).Ok?)
    ensures (c == Upload || c == SignUp) && r.Ok? ==> r.value == Handled(Some(Text(TextOf(body).value)), Keep)
    ensures (c == Upload || c == SignUp) && r.Err? ==> r.error == TextOf(body).error
  {
    match c
    case Ping => Ok(Handled(Some(Text(PingShow(body))), Keep))
    case Time =>
      (match TimeShow(body)
       case Err(e) => Err(e)
       case Ok(t) => Ok(Handled(Some(Clock(t)), Keep)))
    case SignIn =>
      (match SignInShow(body)
       case Err(e) => Err(e)
       case Ok(s) => Ok(Handled(Some(Text(s.text)), if s.login.Some? then SignedIn(s.login.value) else Keep)))
    case SignOut => Ok(Handled(Some(Text(SIGNED_OUT)), SignedOut))
    case Move => Ok(Handled(None, Keep))
    case _ =>
      (match TextOf(body)
       case Err(e) => Err(e)
       case Ok(t) => Ok(Handled(Some(Text(t)), Keep)))
  }

  /** The messages an inbound handler sees: a decoded payload, or text for the user. */
  datatype Inbound = Reply(payload: Payload) | Shown(display: Display)

  /**
   * ChannelPayloadHandler.channelRead: a reply in the table is handled, one
   * outside it is dropped (None); any other message passes unchanged.
   */
  function PayloadHandlerRead(msg: Inbound): (r: Result<Option<Handled>, Exception>)
    ensures msg.Shown? ==> r == Ok(Some(Handled(Some(msg.display), Keep)))
    ensures msg.Reply? && !InTable(msg.payload.cmd) ==> r == Ok(None)
    ensures msg.Reply? && InTable(msg.payload.cmd) ==> r.Ok? ==> r.value.Some?
    ensures msg.Reply? && InTable(msg.payload.cmd) ==>
      (r.Ok? <==> HandleReply(msg.payload.cmd, msg.payload.body).Ok?)
    ensures msg.Reply? && InTable(msg.payload.cmd) && r.Ok? ==>
      r.value == Some(HandleReply(msg.payload.cmd, msg.payload.body).value)
    ensures msg.Reply? && InTable(msg.payload.cmd) && r.Err? ==>
      r.error == HandleReply(msg.payload.cmd, msg.payload.body).error
  {
    match msg
    case Shown(d) => Ok(Some(Handled(Some(d), Keep)))
    case Reply(p) =>
      if !InTable(p.cmd) then Ok(None)
      else
        (match HandleReply(p.cmd, p.body)
         case Err(e) => Err(e)
         case Ok(h) => Ok(Some(h)))
  }

  // ---------------------------------------------------------------------
  // Properties

  /** No command name is empty, so a blank word names none. */
  lemma EmptyNameUnknown()
    ensures GetCmd([]).Err?
  {
    forall d ensures ToUpperCase([]) != Formatted(d) {
      FormattedOf(d);
    }
    GetCmdCharacterised([], Message);
  }

  /**
   * Parsing a line never finds it empty of words; it succeeds exactly when
   * the first word names a command, and a blank line is an unknown command.
   */
  lemma ParseCommandCharacterised(line: JString)
    ensures ParseCommand(line).Ok? <==> GetCmd(Words(line)[0]).Ok?
    ensures ParseCommand(line).Ok? ==>
      ParseCommand(line).value == (GetCmd(Words(line)[0]).value, Words(line)[1..])
    ensures ParseCommand(line).Err? ==> ParseCommand(line).error == Runtime(UNKNOWN_COMMAND)
    ensures Strip(line) == [] ==> ParseCommand(line) == Err(Runtime(UNKNOWN_COMMAND))
  {
    WordsNonEmpty(line);
    if Strip(line) == [] {
      EmptyNameUnknown();
    }
  }

  /**
   * A line sent through the outbound handlers becomes a request packet only
   * for a command both tables hold, tagged with that command.
   */
  lemma SendLineRoutes(line: JString)
    ensures SendLine(line).Ok? ==>
      && ParseCommand(line).Ok?
      && InTable(ParseCommand(line).value.0)
      && SendLine(line).value.Packet?
      && SendLine(line).value.payload.cmd == ParseCommand(line).value.0
    ensures ParseCommand(line).Ok? && !InTable(ParseCommand(line).value.0) ==>
      SendLine(line) == Err(Runtime(CANT_HANDLE + Name(ParseCommand(line).value.0)))
  {
  }
}
