/**
 * Client and server together: the request bodies each client command
 * builds, read back by the server handler of the same command, and the
 * server's replies, read back by the client handler. Paths and texts are
 * ASCII, where string lengths and byte counts agree.
 */
module Exchange {
  import opened Wrappers
  import opened Bytes
  import opened JStrings
  import opened Commands
  import opened Frames
  import opened Cursor
  import opened UserDataCodec
  import opened TimeDataCodec
  import opened Paths
  import opened ClientCommands
  import ClientDownload
  import SignInResponseCodec
  import ServerHandlers
  import FrameDecoder
  import ClientLoop
  import Auth

  /**
   * UPLOAD: the server reads the cloud path the client sent, normalised,
   * and exactly the file's content; a path with NUL is refused.
   */
  lemma UploadArrives(args: seq<JString>, files: JString -> LocalFile)
    requires UploadCheck(args, files).None? && IsAscii(args[1])
    ensures var body := UploadRequest(args, files).payload.body.value;
      && ('\0' in args[1] ==> ServerHandlers.DecodeUpload(body) == Err(InvalidPath))
      && ('\0' !in args[1] ==>
            ServerHandlers.DecodeUpload(body) == Ok((Normalize(ParsePath(args[1]).value), files(args[0]).content)))
  {
    UploadBodyExact(args, files);
    StringFieldRoundTrip(args[1], files(args[0]).content);
  }

  /**
   * UPLOAD as written: the server stores the file's content followed by
   * the zeros that fill the client's buffer.
   */
  lemma UploadAsWrittenArrives(args: seq<JString>, files: JString -> LocalFile)
    requires UploadCheck(args, files).None? && IsAscii(args[1]) && '\0' !in args[1]
    ensures var content := files(args[0]).content;
      var n := 4 + |JStrings.GetBytes(args[1])| + |content|;
      ServerHandlers.DecodeUpload(UploadRequestAsWritten(args, files).payload.body.value)
        == Ok((Normalize(ParsePath(args[1]).value),
               content + Zeros(UploadCapacity(|JStrings.GetBytes(args[1])|, |content|) - n)))
  {
    var content := files(args[0]).content;
    var n := 4 + |JStrings.GetBytes(args[1])| + |content|;
    var zeros := Zeros(UploadCapacity(|JStrings.GetBytes(args[1])|, |content|) - n);
    assert UploadBody(args[1], content) + zeros == StringField(args[1]) + (content + zeros);
    StringFieldRoundTrip(args[1], content + zeros);
  }

  /** The ten-byte file uploaded as "a" is stored as 59 bytes: its content and 49 zeros. */
  lemma UploadAsWrittenCorrupts(files: JString -> LocalFile)
    requires files("f").Found? && |files("f").content| == 10
    ensures var stored := ServerHandlers.DecodeUpload(UploadRequestAsWritten(["f", "a"], files).payload.body.value);
      stored.Ok? && |stored.value.1| == 59 && stored.value.1 != files("f").content
    ensures ServerHandlers.DecodeUpload(UploadRequest(["f", "a"], files).payload.body.value).value.1 == files("f").content
  {
    assert JStrings.GetBytes("a") == [0x61];
    assert ParsePath("f").Some?;
    assert IsAscii("a");
    UploadPadded(files);
    UploadAsWrittenArrives(["f", "a"], files);
    UploadArrives(["f", "a"], files);
  }

  /** MOVE: with ASCII paths the server reads the source and destination the client sent. */
  lemma MoveArrives(src: JString, dst: JString)
    requires IsAscii(src) && IsAscii(dst) && '\0' !in src && '\0' !in dst
    requires 8 + Length(src) + Length(dst) <= INT_MAX
    ensures MoveRequest([src, dst]).Write?
    ensures ServerHandlers.DecodeMove(MoveRequest([src, dst]).payload.body.value)
      == Ok((ParsePath(src).value, ParsePath(dst).value))
  {
    MoveRequestAscii(src, dst);
    StringFieldRoundTrip(dst, []);
    StringFieldRoundTrip(src, StringField(dst));
    assert MoveBody(src, dst) == StringField(src) + StringField(dst);
    assert StringField(dst) + [] == StringField(dst);
  }

  /** SIGN_UP and SIGN_IN: with ASCII credentials the server reads exactly the login and password typed. */
  lemma CredentialsArrive(c: Cmd, login: JString, password: JString)
    requires IsAscii(login) && IsAscii(password) && Encodable(UserData(login, password))
    ensures CredentialsRequest(c, [login, password]).Write?
    ensures ParseUserData(CredentialsRequest(c, [login, password]).payload.body.value)
      == Ok(Parsed(UserData(login, password), []))
  {
    var u := UserData(login, password);
    UserDataRoundTrip(u, []);
    assert UserDataBytes(u) + [] == UserDataBytes(u);
  }

  /**
   * DOWNLOAD: the server reads the cloud path the client sent, normalised.
   * An empty cloud path arrives as a null body, and the server's handler
   * throws on it.
   */
  lemma DownloadArrives(save: Option<Path>, cloud: JString, savePath: JString,
                        address: Auth.Address, env: ServerHandlers.Env)
    requires IsAscii(cloud) && '\0' !in savePath
    ensures var r := ClientDownload.ExecuteResult(save, [cloud, savePath]).1;
      && r.Write?
      && var arrived := FrameDecoder.Received(r.payload).body;
      && (cloud == [] ==> arrived.None? && ServerHandlers.HandleDownload(address, arrived, env) == ServerHandlers.Closed(NullPointer))
      && (cloud != [] && '\0' in cloud ==>
            arrived.Some? && ServerHandlers.DecodeDownload(arrived.value).Err?
            && ServerHandlers.HandleDownload(address, arrived, env) == ServerHandlers.Closed(InvalidPath))
      && (cloud != [] && '\0' !in cloud ==>
            arrived.Some? && ServerHandlers.DecodeDownload(arrived.value) == Ok(Normalize(ParsePath(cloud).value))
            && ServerHandlers.HandleDownload(address, arrived, env)
               == ServerHandlers.DownloadReply(env.downloadFile(address, Normalize(ParsePath(cloud).value))))
  {
    AsciiRoundTrip(cloud);
  }

  /** A SIGN_IN success reply shows "Signed in successfully" and records the login the server returned. */
  lemma SignInSuccessShown(u: UserData)
    requires IsAscii(u.login) && IsAscii(u.password)
    requires SignInResponseCodec.Encodable(SignInResponseCodec.SuccessOf(u))
    ensures var w := ServerHandlers.Wire(ServerHandlers.Out(SignIn, ServerHandlers.Response(SignInResponseCodec.SuccessOf(u))));
      w.Ok? && SignInShow(w.value.body) == Ok(SignInShown(Some(u.login), SIGNED_IN))
  {
    var resp := SignInResponseCodec.SuccessOf(u);
    var bytes := SuccessWired(u);
    var shown := SignInShow(Some(bytes));
    assert SignInResponseCodec.ParseResponse(bytes).value.value == resp;
    assert shown == Ok(SignInShown(Some(u.login), SIGNED_IN));
  }

  /** The bytes a SIGN_IN success reply carries, and what the client parses from them. */
  lemma SuccessWired(u: UserData) returns (bytes: seq<byte>)
    requires IsAscii(u.login) && IsAscii(u.password)
    requires SignInResponseCodec.Encodable(SignInResponseCodec.SuccessOf(u))
    ensures ServerHandlers.Wire(ServerHandlers.Out(SignIn, ServerHandlers.Response(SignInResponseCodec.SuccessOf(u))))
      == Ok(Payload(SignIn, Some(bytes)))
    ensures SignInResponseCodec.ParseResponse(bytes) == Ok(Parsed(SignInResponseCodec.SuccessOf(u), []))
  {
    var resp := SignInResponseCodec.SuccessOf(u);
    SignInResponseCodec.ResponseRoundTrip(resp);
    bytes := SignInResponseCodec.ResponseBytes(resp).value;
    assert ServerHandlers.Wire(ServerHandlers.Out(SignIn, ServerHandlers.Response(resp))) == Ok(Payload(SignIn, Some(bytes)));
  }

  /** A SIGN_IN failure reply shows the server's message, and records no login. */
  lemma SignInFailureShown(m: JString)
    requires IsAscii(m)
    requires SignInResponseCodec.Encodable(SignInResponseCodec.FailureOf(Some(m)))
    ensures var w := ServerHandlers.Wire(ServerHandlers.Out(SignIn, ServerHandlers.Response(SignInResponseCodec.FailureOf(Some(m)))));
      w.Ok? && SignInShow(w.value.body) == Ok(SignInShown(None, m))
  {
    SignInResponseCodec.ResponseRoundTrip(SignInResponseCodec.FailureOf(Some(m)));
  }

  /**
   * A text reply (SIGN_UP's refusal, UPLOAD's outcome) shows the server's
   * ASCII text unchanged once it has crossed the wire; an empty text
   * arrives as a null body, on which the client's handler throws.
   */
  lemma TextShown(c: Cmd, m: JString)
    requires IsAscii(m)
    ensures var w := ServerHandlers.Wire(ServerHandlers.Out(c, ServerHandlers.Text(m)));
      && w.Ok?
      && (m != [] ==> TextOf(FrameDecoder.Received(w.value).body) == Ok(m))
      && (m == [] ==> TextOf(FrameDecoder.Received(w.value).body) == Err(NullPointer))
  {
    AsciiRoundTrip(m);
  }

  /**
   * An empty cloud file cannot be downloaded: the server answers DOWNLOAD
   * with an empty body, the client receives it as null, and the waiting
   * DOWNLOAD handler throws, which shuts the client down.
   */
  lemma EmptyFileShutsClient(c: ClientLoop.Client, w: ClientLoop.World)
    requires c.pending == Some(Download) && c.save.Some?
    ensures var sent := ServerHandlers.DownloadReply(ServerHandlers.DownloadAnswer(Some(ServerHandlers.Readable([])), None));
      && sent == ServerHandlers.Replies([ServerHandlers.Out(Download, ServerHandlers.Raw([]))])
      && var wired := ServerHandlers.Wire(sent.sent[0]);
      && wired.Ok?
      && FrameDecoder.Received(wired.value) == Payload(Download, None)
      && ClientLoop.ChannelReadResult(c, FrameDecoder.Received(wired.value), w) == (ClientLoop.Shutdown(c), [])
  {
  }

  /** TIME: the client reads back the server's clock. */
  lemma TimeShown(now: int)
    requires IsLong(now)
    ensures TimeShow(Some(TimeDataBytes(TimeData(now)))) == Ok(TimeData(now))
  {
    TimeDataRoundTrip(TimeData(now), []);
    assert TimeDataBytes(TimeData(now)) + [] == TimeDataBytes(TimeData(now));
  }

  /** PING: the server echoes the body, and the client shows "ping " and the words typed. */
  lemma PingEchoed(args: seq<JString>)
    requires IsAscii(Join(args, " "))
    ensures var echo := ServerHandlers.Wire(ServerHandlers.Out(Ping, ServerHandlers.Raw(PingRequest(args).payload.body.value)));
      echo.Ok? && PingShow(echo.value.body) == "ping " + Join(args, " ")
  {
    AsciiRoundTrip(Join(args, " "));
  }
}
