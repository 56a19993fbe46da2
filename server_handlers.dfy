/**
 * The server's request handling (server/.../RequestHandler.java and the
 * handlers in its table). Each handler decodes the request payload, calls
 * the FileManager and maps its result to reply payloads. An exception
 * thrown on the way reaches exceptionCaught, which closes the connection.
 *
 * The clock, the disk, and the FileManager's downloadFile and moveFile,
 * whose code is not part of this model, are inputs: an Env.
 */
module ServerHandlers {
  import opened Wrappers
  import opened Bytes
  import opened JStrings
  import opened Commands
  import opened Frames
  import opened Cursor
  import opened UserDataCodec
  import opened TimeDataCodec
  import opened Paths
  import Auth
  import SignInResponseCodec
  import FM = ServerFileManager

  /** What handling one request does to the connection. */
  datatype Outcome =
    | Replies(sent: seq<Out>)       // the replies written, in order
    | Closed(cause: Exception)      // an exception reached exceptionCaught, which closes the channel

  /** A stream downloadFile hands back: its bytes, or a read that fails. */
  datatype Stream = Readable(bytes: seq<byte>) | Unreadable

  /** downloadFile's Pair<InputStream, String>: a stream or null, and a message or null. */
  datatype DownloadAnswer = DownloadAnswer(stream: Option<Stream>, message: Option<JString>)

  /**
   * The world the handlers see: the clock, whether a new user folder can be
   * made, the disk and whether a write to it fails, and the answers of
   * downloadFile and moveFile.
   */
  datatype Env = Env(
    now: int,
    folderReady: bool,
    disk: FM.Disk,
    writeFails: bool,
    downloadFile: (Auth.Address, Path) -> DownloadAnswer,
    moveFile: (Auth.Address, Path, Path) -> FM.Reply)

  const UNHANDLED_COMMAND: JString := "The server can't handle this command."
  const UPLOADED: JString := "File uploaded successfully."
  const UPLOAD_FAILED: JString := "Failed to upload file."
  const DOWNLOAD_FAILED: JString := "Failed to download file from cloud."
  const MOVED: JString := "File moved successfully."
  const MOVE_FAILED: JString := "Failed to move a file"

  /**
   * The body of a reply as the handler builds it: none, raw bytes, a string
   * (sent as its getBytes()), or a SignInResponse (sent as its getBytes()).
   */
  datatype Body =
    | NoBody
    | Raw(bytes: seq<byte>)
    | Text(text: JString)
    | Response(response: SignInResponseCodec.SignInResponse)

  /** A reply payload as the handler builds it. */
  datatype Out = Out(cmd: Cmd, body: Body)

  predicate WellFormedOut(o: Out)
  {
    o.body.Response? ==> SignInResponseCodec.WellFormed(o.body.response)
  }

  /**
   * The payload a reply is written as. Encoding a SignInResponse can throw
   * (a length past the int range, or a non-ASCII message that overflows its
   * buffer); the exception is raised in the handler, before anything is
   * written, and closes the connection.
   */
  function Wire(o: Out): (r: Result<Payload, Exception>)
    requires WellFormedOut(o)
    ensures r.Ok? ==> r.value.cmd == o.cmd && (r.value.body.None? <==> o.body.NoBody?)
    ensures r.Err? ==> o.body.Response? && r.error in {LengthOverflow, BufferOverflow}
  {
    match o.body
    case NoBody => Ok(Payload(o.cmd, None))
    case Raw(b) => Ok(Payload(o.cmd, Some(b)))
    case Text(t) => Ok(Payload(o.cmd, Some(JStrings.GetBytes(t))))
    case Response(resp) =>
      if !SignInResponseCodec.Encodable(resp) then Err(LengthOverflow)
      else
        match SignInResponseCodec.ResponseBytes(resp)
        case Err(e) => Err(e)
        case Ok(b) => Ok(Payload(o.cmd, Some(b)))
  }

  /** REQUEST_HANDLER_INSTANCES: a handler for each of the eight request commands, none for MESSAGE. */
  predicate HasHandler(c: Cmd)
  {
    c != Message
  }

  // ---------------------------------------------------------------------
  // SIGN_UP and SIGN_IN

  /**
   * SignUpHandler.handle: the body as UserData, then signUp; success is
   * answered SIGN_IN with success(userData), failure SIGN_UP with the bare
   * message bytes.
   */
  function HandleSignUp(root: Path, s: FM.Server, address: Auth.Address, body: Option<seq<byte>>, ready: bool): (r: (FM.Server, Outcome))
    requires FM.Consistent(root, s)
    ensures r.1.Replies? ==> |r.1.sent| == 1 && WellFormedOut(r.1.sent[0])
    ensures body.None? ==> r == (s, Closed(NullPointer))
    ensures body.Some? && ParseUserData(body.value).Err? ==> r == (s, Closed(ParseUserData(body.value).error))
    ensures body.Some? && ParseUserData(body.value).Ok? ==>
      var u := ParseUserData(body.value).value.value;
      var res := FM.SignUpResult(root, s, address, u, ready);
      && r.0 == res.0
      && (res.1.success ==> r.1 == Replies([Out(SignIn, Response(SignInResponseCodec.SuccessOf(u)))]))
      && (!res.1.success && res.1.message.Some? ==> r.1 == Replies([Out(SignUp, Text(res.1.message.value))]))
  {
    if body.None? then (s, Closed(NullPointer))
    else
      match ParseUserData(body.value)
      case Err(e) => (s, Closed(e))
      case Ok(u) =>
        var (t, result) := FM.SignUpResult(root, s, address, u.value, ready);
        if result.success then (t, Replies([Out(SignIn, Response(SignInResponseCodec.SuccessOf(u.value)))]))
        else
          match result.message
          case None => (t, Closed(NullPointer))
          case Some(m) => (t, Replies([Out(SignUp, Text(m))]))
  }

  /** SignInHandler.handle: the body as UserData, then signIn; the reply is SIGN_IN with success(userData) or failure(message). */
  function HandleSignIn(root: Path, s: FM.Server, address: Auth.Address, body: Option<seq<byte>>, now: int): (r: (FM.Server, Outcome))
    requires FM.Consistent(root, s)
    ensures r.1.Replies? ==> |r.1.sent| == 1 && WellFormedOut(r.1.sent[0])
    ensures body.None? ==> r == (s, Closed(NullPointer))
    ensures body.Some? && ParseUserData(body.value).Err? ==> r == (s, Closed(ParseUserData(body.value).error))
    ensures body.Some? && ParseUserData(body.value).Ok? ==>
      var u := ParseUserData(body.value).value.value;
      var res := FM.SignInResult(root, s, address, u, now);
      && r.0 == res.0
      && (res.1.success ==> r.1 == Replies([Out(SignIn, Response(SignInResponseCodec.SuccessOf(u)))]))
      && (!res.1.success ==> r.1 == Replies([Out(SignIn, Response(SignInResponseCodec.FailureOf(res.1.message)))]))
  {
    if body.None? then (s, Closed(NullPointer))
    else
      match ParseUserData(body.value)
      case Err(e) => (s, Closed(e))
      case Ok(u) =>
        var (t, result) := FM.SignInResult(root, s, address, u.value, now);
        if result.success then (t, Replies([Out(SignIn, Response(SignInResponseCodec.SuccessOf(u.value)))]))
        else (t, Replies([Out(SignIn, Response(SignInResponseCodec.FailureOf(result.message)))]))
  }

  // ---------------------------------------------------------------------
  // UPLOAD, DOWNLOAD, MOVE

  /**
   * The UPLOAD body: an int length, that many bytes of path, read as a
   * string and normalised; everything after it is the file content.
   */
  function DecodeUpload(body: seq<byte>): (r: Result<(Path, seq<byte>), Exception>)
    ensures r.Ok? ==> IsNormal(r.value.0)
    ensures r.Err? ==> r.error in {Underflow, NegativeArraySize, InvalidPath}
  {
    match ParseString(body)
    case Err(e) => Err(e)
    case Ok(ps) =>
      match ParsePath(ps.value)
      case None => Err(InvalidPath)
      case Some(path) =>
        NormalizeIsNormal(path);
        Ok((Normalize(path), ps.rest))
  }

  /** The replies to an upload: the outcome, then the FileManager's message when there is one. */
  function UploadReplies(result: FM.Reply): (r: seq<Out>)
    ensures 1 <= |r| <= 2 && forall i :: 0 <= i < |r| ==> r[i].cmd == Upload
    ensures r[0] == Out(Upload, Text(if result.success then UPLOADED else UPLOAD_FAILED))
    ensures |r| == 2 <==> result.message.Some?
    ensures |r| == 2 ==> r[1] == Out(Upload, Text(result.message.value))
  {
    [Out(Upload, Text(if result.success then UPLOADED else UPLOAD_FAILED))]
      + (if result.message.Some? then [Out(Upload, Text(result.message.value))] else [])
  }

  lemma SessionHasFolder(root: Path, s: FM.Server, address: Auth.Address)
    requires FM.Consistent(root, s)
    ensures address in s.acc.userBySession ==>
      s.acc.userBySession[address] in s.userRoot && s.acc.userBySession[address] in s.userWorkingDirectory
  {
    if address in s.acc.userBySession {
      assert s.acc.userBySession[address] in s.acc.sessionByUser;
    }
  }

  /** UploadHandler.handle: decode, uploadFile, replies; returns the disk as uploadFile leaves it. */
  function HandleUpload(root: Path, s: FM.Server, address: Auth.Address, body: Option<seq<byte>>, d: FM.Disk, writeFails: bool): (r: (FM.Disk, Outcome))
    requires FM.Consistent(root, s)
    ensures body.None? ==> r == (d, Closed(NullPointer))
    ensures r.1.Closed? <==> body.None? || DecodeUpload(body.value).Err?
    ensures r.1.Closed? ==> r.0 == d
    ensures r.1.Replies? ==> 1 <= |r.1.sent| <= 2
    ensures r.1.Replies? ==> r.1.sent[0] in {Out(Upload, Text(UPLOADED)), Out(Upload, Text(UPLOAD_FAILED))}
    ensures r.1.Replies? && |r.1.sent| == 2 ==> r.1.sent[1].cmd == Upload && r.1.sent[1].body.Text?
    ensures r.1.Replies? && r.1.sent[0] == Out(Upload, Text(UPLOAD_FAILED)) ==> r.0 == d
    ensures r.1.Replies? && address !in s.acc.userBySession ==>
      r.1.sent == [Out(Upload, Text(UPLOAD_FAILED)), Out(Upload, Text(FM.UNKNOWN_SESSION))]
    ensures r.1.Replies? && r.1.sent[0] == Out(Upload, Text(UPLOADED)) ==>
      && r.1.sent == [Out(Upload, Text(UPLOADED))]
      && exists t :: t !in d && r.0 == d[t := DecodeUpload(body.value).value.1]
  {
    if body.None? then (d, Closed(NullPointer))
    else
      match DecodeUpload(body.value)
      case Err(e) => (d, Closed(e))
      case Ok((path, content)) =>
        SessionHasFolder(root, s, address);
        var (result, d2) := FM.UploadFileResult(s, address, path, content, d, writeFails);
        (d2, Replies(UploadReplies(result)))
  }

  /** The DOWNLOAD body: the whole of it is the path string, normalised. */
  function DecodeDownload(body: seq<byte>): (r: Result<Path, Exception>)
    ensures r.Ok? <==> '\0' !in NewString(body)
    ensures r.Ok? ==> IsNormal(r.value)
  {
    match ParsePath(NewString(body))
    case None => Err(InvalidPath)
    case Some(path) =>
      NormalizeIsNormal(path);
      Ok(Normalize(path))
  }

  /**
   * The reply to a download: no stream gives MESSAGE with the message, a
   * readable stream DOWNLOAD with all its bytes, a failed read MESSAGE with
   * the fixed failure text.
   */
  function DownloadReply(answer: DownloadAnswer): (r: Outcome)
    ensures r.Closed? <==> answer.stream.None? && answer.message.None?
    ensures r.Closed? ==> r.cause == NullPointer
    ensures r.Replies? ==> |r.sent| == 1
    ensures answer.stream.Some? && answer.stream.value.Readable? ==> r == Replies([Out(Download, Raw(answer.stream.value.bytes))])
    ensures answer.stream == Some(Unreadable) ==> r == Replies([Out(Message, Text(DOWNLOAD_FAILED))])
    ensures answer.stream.None? && answer.message.Some? ==> r == Replies([Out(Message, Text(answer.message.value))])
  {
    match answer.stream
    case None =>
      (match answer.message
       case None => Closed(NullPointer)
       case Some(m) => Replies([Out(Message, Text(m))]))
    case Some(Readable(b)) => Replies([Out(Download, Raw(b))])
    case Some(Unreadable) => Replies([Out(Message, Text(DOWNLOAD_FAILED))])
  }

  /** DownloadHandler.handle: the path downloadFile is asked for is the body's string, normalised. */
  function HandleDownload(address: Auth.Address, body: Option<seq<byte>>, env: Env): (r: Outcome)
    ensures body.None? ==> r == Closed(NullPointer)
    ensures body.Some? && '\0' in NewString(body.value) ==> r == Closed(InvalidPath)
    ensures body.Some? && '\0' !in NewString(body.value) ==>
      r == DownloadReply(env.downloadFile(address, Normalize(ParsePath(NewString(body.value)).value)))
  {
    if body.None? then Closed(NullPointer)
    else
      match DecodeDownload(body.value)
      case Err(e) => Closed(e)
      case Ok(path) => DownloadReply(env.downloadFile(address, path))
  }

  /** The MOVE body: two length-prefixed strings, source then destination, each made a path (not normalised). */
  function DecodeMove(body: seq<byte>): (r: Result<(Path, Path), Exception>)
    ensures r.Err? ==> r.error in {Underflow, NegativeArraySize, InvalidPath}
    ensures r.Ok? <==>
      && ParseString(body).Ok? && ParseString(ParseString(body).value.rest).Ok?
      && '\0' !in ParseString(body).value.value
      && '\0' !in ParseString(ParseString(body).value.rest).value.value
    ensures r.Ok? ==>
      && Some(r.value.0) == ParsePath(ParseString(body).value.value)
      && Some(r.value.1) == ParsePath(ParseString(ParseString(body).value.rest).value.value)
  {
    match ParseString(body)
    case Err(e) => Err(e)
    case Ok(src) =>
      match ParseString(src.rest)
      case Err(e) => Err(e)
      case Ok(dst) =>
        match (ParsePath(src.value), ParsePath(dst.value))
        case (Some(p), Some(q)) => Ok((p, q))
        case _ => Err(InvalidPath)
  }

  /** The reply to a move: always MESSAGE; on failure the result's message, or a fixed text when it is null. */
  function MoveReply(result: FM.Reply): (r: Out)
    ensures r.cmd == Message
    ensures result.success ==> r == Out(Message, Text(MOVED))
    ensures !result.success ==> r == Out(Message, Text(if result.message.Some? then result.message.value else MOVE_FAILED))
  {
    Out(Message, Text(if result.success then MOVED else if result.message.Some? then result.message.value else MOVE_FAILED))
  }

  /** MoveHandler.handle: moveFile on the two decoded paths, answered with one MESSAGE. */
  function HandleMove(address: Auth.Address, body: Option<seq<byte>>, env: Env): (r: Outcome)
    ensures body.None? ==> r == Closed(NullPointer)
    ensures r.Closed? <==> body.None? || DecodeMove(body.value).Err?
    ensures r.Replies? ==>
      var (src, dst) := DecodeMove(body.value).value;
      r.sent == [MoveReply(env.moveFile(address, src, dst))] && r.sent[0].cmd == Message
  {
    if body.None? then Closed(NullPointer)
    else
      match DecodeMove(body.value)
      case Err(e) => Closed(e)
      case Ok((src, dst)) => Replies([MoveReply(env.moveFile(address, src, dst))])
  }

  // ---------------------------------------------------------------------
  // RequestHandler

  /**
   * channelRead0: the payload goes to the handler its command maps to; a
   * command without one is answered with a PING carrying a fixed text.
   * Returns the FileManager's state, the disk and what the connection sees.
   */
  function HandleRequest(root: Path, s: FM.Server, address: Auth.Address, p: Payload, env: Env): (r: (FM.Server, FM.Disk, Outcome))
    requires FM.Consistent(root, s) && IsLong(env.now)
    ensures !HasHandler(p.cmd) ==> r == (s, env.disk, Replies([Out(Ping, Text(UNHANDLED_COMMAND))]))
    ensures p.cmd == Ping ==> r == (s, env.disk, Replies([Out(Ping, if p.body.Some? then Raw(p.body.value) else NoBody)]))
    ensures p.cmd == SignUp ==> (r.0, r.2) == HandleSignUp(root, s, address, p.body, env.folderReady)
    ensures p.cmd == SignIn ==> (r.0, r.2) == HandleSignIn(root, s, address, p.body, env.now)
    ensures p.cmd == Upload ==> r.0 == s && (r.1, r.2) == HandleUpload(root, s, address, p.body, env.disk, env.writeFails)
    ensures p.cmd == Download ==> r == (s, env.disk, HandleDownload(address, p.body, env))
    ensures p.cmd == Move ==> r == (s, env.disk, HandleMove(address, p.body, env))
  {
    match p.cmd
    case Message => (s, env.disk, Replies([Out(Ping, Text(UNHANDLED_COMMAND))]))
    case Ping => (s, env.disk, Replies([Out(Ping, if p.body.Some? then Raw(p.body.value) else NoBody)]))
    case Time => (s, env.disk, Replies([Out(Time, Raw(TimeDataBytes(TimeData(env.now))))]))
    case SignUp =>
      var (t, o) := HandleSignUp(root, s, address, p.body, env.folderReady);
      (t, env.disk, o)
    case SignIn =>
      var (t, o) := HandleSignIn(root, s, address, p.body, env.now);
      (t, env.disk, o)
    case SignOut => (FM.SignOutResult(s, address), env.disk, Replies([Out(SignOut, NoBody)]))
    case Upload =>
      var (d, o) := HandleUpload(root, s, address, p.body, env.disk, env.writeFails);
      (s, d, o)
    case Download => (s, env.disk, HandleDownload(address, p.body, env))
    case Move => (s, env.disk, HandleMove(address, p.body, env))
  }

  /** channelUnregistered: the connection's address is signed out. */
  function Unregistered(s: FM.Server, address: Auth.Address): (r: FM.Server)
    ensures address !in r.acc.userBySession
    ensures address in s.acc.userBySession ==> s.acc.userBySession[address] !in r.acc.sessionByUser
  {
    FM.SignOutResult(s, address)
  }

  // ---------------------------------------------------------------------
  // Properties

  /** SIGN_UP keeps the FileManager's invariant. */
  lemma SignUpHandlerValid(root: Path, s: FM.Server, address: Auth.Address, body: Option<seq<byte>>, ready: bool)
    requires FM.Consistent(root, s)
    ensures FM.Consistent(root, HandleSignUp(root, s, address, body, ready).0)
  {
    if body.Some? && ParseUserData(body.value).Ok? {
      FM.SignUpValid(root, s, address, ParseUserData(body.value).value.value, ready);
    }
  }

  /**
   * SIGN_UP closes the connection exactly when the body is null or is not
   * user data, and then changes nothing.
   */
  lemma SignUpHandlerClosed(root: Path, s: FM.Server, address: Auth.Address, body: Option<seq<byte>>, ready: bool)
    requires FM.Consistent(root, s)
    ensures var r := HandleSignUp(root, s, address, body, ready);
      && (r.1.Closed? <==> body.None? || ParseUserData(body.value).Err?)
      && (r.1.Closed? ==> r.0 == s)
  {
    if body.Some? && ParseUserData(body.value).Ok? {
      FM.SignUpSucceeds(root, s, address, ParseUserData(body.value).value.value, ready);
    }
  }

  /** SIGN_IN keeps the FileManager's invariant. */
  lemma SignInHandlerValid(root: Path, s: FM.Server, address: Auth.Address, body: Option<seq<byte>>, now: int)
    requires FM.Consistent(root, s)
    ensures FM.Consistent(root, HandleSignIn(root, s, address, body, now).0)
  {
    if body.Some? && ParseUserData(body.value).Ok? {
      FM.SignInConsistent(root, s, address, ParseUserData(body.value).value.value, now);
    }
  }

  /**
   * SIGN_UP with readable user data: SIGN_IN with success(userData) exactly
   * when the address has no session, the login is new and plain and its
   * folder can be made; otherwise SIGN_UP carrying the reason.
   */
  lemma SignUpHandlerReplies(root: Path, s: FM.Server, address: Auth.Address, body: seq<byte>, ready: bool)
    requires FM.Consistent(root, s) && ParseUserData(body).Ok?
    ensures var u := ParseUserData(body).value.value;
      var r := HandleSignUp(root, s, address, Some(body), ready).1;
      && (r == Replies([Out(SignIn, Response(SignInResponseCodec.SuccessOf(u)))]) <==>
            address !in s.acc.userBySession && u.login !in s.acc.users && FM.FolderCheck(u.login) && ready)
      && (address in s.acc.userBySession ==> r == Replies([Out(SignUp, Text(Auth.ADDRESS_IN_SESSION))]))
      && (address !in s.acc.userBySession && u.login in s.acc.users ==> r == Replies([Out(SignUp, Text(Auth.LOGIN_TAKEN))]))
      && (address !in s.acc.userBySession && u.login !in s.acc.users && !(FM.FolderCheck(u.login) && ready) ==>
            r == Replies([Out(SignUp, Text(FM.FOLDER_FAILED))]))
  {
    var u := ParseUserData(body).value.value;
    FM.SignUpSucceeds(root, s, address, u, ready);
    if address !in s.acc.userBySession && u.login !in s.acc.users && !(FM.FolderCheck(u.login) && ready) {
      FM.SignUpRolledBack(root, s, address, u, ready);
    }
  }

  /**
   * SIGN_IN with readable user data: success(userData) exactly when the
   * accounts let the user in, otherwise failure with the accounts' reason.
   */
  lemma SignInHandlerReplies(root: Path, s: FM.Server, address: Auth.Address, body: seq<byte>, now: int)
    requires FM.Consistent(root, s) && ParseUserData(body).Ok?
    ensures var u := ParseUserData(body).value.value;
      var r := HandleSignIn(root, s, address, Some(body), now).1;
      var verdict := Auth.SignIn(s.acc, address, u, now).1;
      && (verdict.Ok? ==> r == Replies([Out(SignIn, Response(SignInResponseCodec.SuccessOf(u)))]))
      && (verdict.Err? ==> r == Replies([Out(SignIn, Response(SignInResponseCodec.FailureOf(Some(verdict.error))))]))
  {
  }

  /** Every request keeps the FileManager's invariant. */
  lemma HandleRequestValid(root: Path, s: FM.Server, address: Auth.Address, p: Payload, env: Env)
    requires FM.Consistent(root, s) && IsLong(env.now)
    ensures FM.Consistent(root, HandleRequest(root, s, address, p, env).0)
  {
    match p.cmd
    case SignUp => SignUpHandlerValid(root, s, address, p.body, env.folderReady);
    case SignIn => SignInHandlerValid(root, s, address, p.body, env.now);
    case SignOut => FM.SignOutValid(root, s, address);
    case _ =>
  }

  /**
   * Only sign-up, sign-in and sign-out change the FileManager's maps, and
   * only an upload changes the disk; a command without a handler is
   * answered and the connection stays open.
   */
  lemma HandleRequestFrame(root: Path, s: FM.Server, address: Auth.Address, p: Payload, env: Env)
    requires FM.Consistent(root, s) && IsLong(env.now)
    ensures var r := HandleRequest(root, s, address, p, env);
      && (p.cmd !in {SignUp, SignIn, SignOut} ==> r.0 == s)
      && (p.cmd != Upload ==> r.1 == env.disk)
      && (!HasHandler(p.cmd) ==> r.2 == Replies([Out(Ping, Text(UNHANDLED_COMMAND))]))
  {
  }

  /**
   * A request that closes the connection (a null body where one is needed,
   * too few bytes, a negative length, an invalid path) changes neither the
   * FileManager nor the disk.
   */
  lemma ClosingRequestChangesNothing(root: Path, s: FM.Server, address: Auth.Address, p: Payload, env: Env)
    requires FM.Consistent(root, s) && IsLong(env.now)
    ensures var r := HandleRequest(root, s, address, p, env);
      r.2.Closed? ==> r.0 == s && r.1 == env.disk
  {
    match p.cmd
    case SignUp => SignUpHandlerClosed(root, s, address, p.body, env.folderReady);
    case _ =>
  }

  /** Every reply a handler builds can be handed to Wire. */
  lemma RepliesWellFormed(root: Path, s: FM.Server, address: Auth.Address, p: Payload, env: Env)
    requires FM.Consistent(root, s) && IsLong(env.now)
    ensures var r := HandleRequest(root, s, address, p, env).2;
      r.Replies? ==> forall i :: 0 <= i < |r.sent| ==> WellFormedOut(r.sent[i])
  {
    var r := HandleRequest(root, s, address, p, env);
    match p.cmd
    case SignUp =>
    case SignIn =>
    case Upload =>
      var u := HandleUpload(root, s, address, p.body, env.disk, env.writeFails).1;
      assert r.2 == u;
      if u.Replies? {
        UploadRepliesText(u.sent);
      }
    case Download =>
    case Move =>
    case Message =>
    case Ping =>
    case Time =>
    case SignOut =>
  }

  lemma UploadRepliesText(sent: seq<Out>)
    requires 1 <= |sent| <= 2
    requires sent[0] in {Out(Upload, Text(UPLOADED)), Out(Upload, Text(UPLOAD_FAILED))}
    requires |sent| == 2 ==> sent[1].body.Text?
    ensures forall i :: 0 <= i < |sent| ==> WellFormedOut(sent[i])
  {
  }

  /** Signing out answers SIGN_OUT with a null body whether or not there was a session, and a repeat changes nothing more. */
  lemma SignOutAnswered(root: Path, s: FM.Server, address: Auth.Address, p: Payload, env: Env)
    requires FM.Consistent(root, s) && IsLong(env.now) && p.cmd == SignOut
    ensures var r := HandleRequest(root, s, address, p, env);
      && r.2 == Replies([Out(SignOut, NoBody)])
      && address !in r.0.acc.userBySession
      && r.0.acc.users == s.acc.users
      && (address !in s.acc.userBySession ==> r.0 == s)
      && FM.SignOutResult(r.0, address) == r.0
  {
  }

  /** After the channel is unregistered neither the address nor its user has a session; nothing else changes. */
  lemma DisconnectEndsSession(root: Path, s: FM.Server, address: Auth.Address)
    requires FM.Consistent(root, s)
    ensures var r := Unregistered(s, address);
      && FM.Consistent(root, r)
      && r.acc.users == s.acc.users && r.userRoot == s.userRoot
      && r.acc.addressPenalty == s.acc.addressPenalty
      && r.acc.addressSignInAttempts == s.acc.addressSignInAttempts
      && forall a :: a in r.acc.userBySession <==> a in s.acc.userBySession && a != address
  {
    FM.SignOutValid(root, s, address);
  }

  /** The time reply carries the clock reading, and decoding it gives that reading back. */
  lemma TimeReplyDecodes(root: Path, s: FM.Server, address: Auth.Address, p: Payload, env: Env)
    requires FM.Consistent(root, s) && IsLong(env.now) && p.cmd == Time
    ensures var r := HandleRequest(root, s, address, p, env).2;
      && r.Replies? && |r.sent| == 1 && r.sent[0].cmd == Time && r.sent[0].body.Raw?
      && TimeDataOf(r.sent[0].body.bytes) == Ok(TimeData(env.now))
  {
    TimeDataRoundTrip(TimeData(env.now), []);
    assert TimeDataBytes(TimeData(env.now)) + [] == TimeDataBytes(TimeData(env.now));
  }
}
