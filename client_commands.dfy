/**
 * The client's per-command logic (client/.../PingHandler.java, TimeHandler,
 * SignUpHandler, SignInHandler, SignOutHandler, UploadHandler and
 * MoveHandler). execute turns the arguments of a command line into a
 * request payload, or fails the command's promise. handle turns a reply
 * body into what the client shows.
 *
 * The local file system an upload reads is an input: what reading each
 * path gives.
 */
module ClientCommands {
  import opened Wrappers
  import opened Bytes
  import opened JStrings
  import opened Commands
  import opened Frames
  import opened UserDataCodec
  import opened TimeDataCodec
  import opened Paths
  import SignInResponseCodec

  /** What execute does with the command's promise: writes a request with it, or fails it. */
  datatype Request = Write(payload: Payload) | Refused(cause: Exception)

  const WRONG_CREDENTIAL_ARGUMENTS: JString := "Wrong number of arguments. You have to pass only login and password"
  const WRONG_UPLOAD_ARGUMENTS: JString :=
    "Wrong number of arguments.\nYou have to pass only path to file and path to save file on server as arguments."
  const INVALID_LOCAL_PATH: JString := "Invalid path passed. Please check the path and try again."
  const FILE_NOT_FOUND: JString := "File not found. Please check the path and try again."
  const READ_FAILED: JString := "Error occurred while reading a file."
  const FILE_ACCESS_FAILED: JString := "Failed to get a file by path."
  const WRONG_MOVE_ARGUMENTS: JString :=
    "Wrong number of arguments.\nYou have to pass only path of file in cloud to move and new path of file to save as arguments."
  const SIGNED_IN: JString := "Signed in successfully"

  // ---------------------------------------------------------------------
  // PING and TIME

  /** PingHandler.execute: any number of arguments, joined by single spaces, as the body. */
  function PingRequest(args: seq<JString>): (r: Request)
    ensures r.Write? && r.payload.cmd == Ping && r.payload.body.Some?
  {
    Write(Payload(Ping, Some(JStrings.GetBytes(Join(args, " ")))))
  }

  /** PingHandler.handle0: "ping " and the body as text, nothing after "ping " for a null body. */
  function PingShow(body: Option<seq<byte>>): (r: JString)
    ensures |r| == 5 + |BodyBytes(body)| && r[..5] == "ping "
    ensures body.Some? ==> r[5..] == NewString(body.value)
  {
    "ping " + (if body.None? then "" else NewString(body.value))
  }

  /** TimeHandler.execute: the arguments are ignored; the request is TIME with a null body. */
  function TimeRequest(): (r: Request)
    ensures r.Write? && r.payload.cmd == Time && PayloadBytes(r.payload) == [Tag(Time)]
  {
    Write(Payload(Time, None))
  }

  /**
   * TimeHandler.handle0: TimeData.fromBytes of the body (its toString, a
   * date, is not modelled); a null body throws.
   */
  function TimeShow(body: Option<seq<byte>>): (r: Result<TimeData, Exception>)
    ensures body.None? ==> r == Err(NullPointer)
    ensures body.Some? ==> r == TimeDataOf(body.value)
  {
    if body.None? then Err(NullPointer) else TimeDataOf(body.value)
  }

  // ---------------------------------------------------------------------
  // SIGN_UP, SIGN_IN, SIGN_OUT

  /**
   * SignUpHandler.execute and SignInHandler.execute: exactly two arguments,
   * login and password, sent as UserData. A record too long for getBytes'
   * int arithmetic throws, which fails the promise.
   */
  function CredentialsRequest(c: Cmd, args: seq<JString>): (r: Request)
    ensures |args| != 2 ==> r == Refused(Runtime(WRONG_CREDENTIAL_ARGUMENTS))
    ensures r.Write? <==> |args| == 2 && Encodable(UserData(args[0], args[1]))
    ensures r.Write? ==> r.payload.cmd == c && r.payload.body.Some?
  {
    if |args| != 2 then Refused(Runtime(WRONG_CREDENTIAL_ARGUMENTS))
    else
      var u := UserData(args[0], args[1]);
      if !Encodable(u) then Refused(LengthOverflow)
      else Write(Payload(c, Some(UserDataBytes(u))))
  }

  /** `new String(body)`, as SignUpHandler.handle and UploadHandler.handle0 show a reply; a null body throws. */
  function TextOf(body: Option<seq<byte>>): (r: Result<JString, Exception>)
    ensures r.Err? <==> body.None?
    ensures r.Ok? ==> |r.value| == |body.value|
  {
    if body.None? then Err(NullPointer) else Ok(NewString(body.value))
  }

  /** What SignInHandler.handle does with a reply: the login it records, if any, and the text it shows. */
  datatype SignInShown = SignInShown(login: Option<JString>, text: JString)

  /**
   * SignInHandler.handle: the body as a SignInResponse. A success records
   * the login and shows "Signed in successfully"; a failure shows its
   * message, and a null message, like a null body, throws.
   */
  function SignInShow(body: Option<seq<byte>>): (r: Result<SignInShown, Exception>)
    ensures body.None? ==> r == Err(NullPointer)
    ensures body.Some? && SignInResponseCodec.ParseResponse(body.value).Err? ==>
      r == Err(SignInResponseCodec.ParseResponse(body.value).error)
    ensures body.Some? && SignInResponseCodec.ParseResponse(body.value).Ok? ==>
      var resp := SignInResponseCodec.ParseResponse(body.value).value.value;
      && (resp.status == SignInResponseCodec.Success ==> r == Ok(SignInShown(Some(resp.userData.value.login), SIGNED_IN)))
      && (resp.status == SignInResponseCodec.Failure && resp.message.Some? ==> r == Ok(SignInShown(None, resp.message.value)))
      && (resp.status == SignInResponseCodec.Failure && resp.message.None? ==> r == Err(NullPointer))
    ensures r.Ok? && r.value.login.Some? ==> r.value.text == SIGNED_IN
  {
    if body.None? then Err(NullPointer)
    else
      match SignInResponseCodec.ParseResponse(body.value)
      case Err(e) => Err(e)
      case Ok(resp) =>
        if resp.value.status == SignInResponseCodec.Success then
          Ok(SignInShown(Some(resp.value.userData.value.login), SIGNED_IN))
        else if resp.value.message.None? then Err(NullPointer)
        else Ok(SignInShown(None, resp.value.message.value))
  }

  /** SignOutHandler.execute: the arguments are ignored; the request is SIGN_OUT with a null body. */
  function SignOutRequest(): (r: Request)
    ensures r.Write? && r.payload.cmd == SignOut && PayloadBytes(r.payload) == [Tag(SignOut)]
  {
    Write(Payload(SignOut, None))
  }

  // ---------------------------------------------------------------------
  // UPLOAD

  /** The local file behind a path, as File and FileInputStream find it. */
  datatype LocalFile =
    | Found(content: seq<byte>)
    | Missing         // FileNotFoundException
    | Unreadable      // another IOException while reading
    | Inaccessible    // IllegalArgumentException or SecurityException from new File(path.toUri())

  /** The UPLOAD body as the server reads it: the cloud path as a length-prefixed string, then the file content. */
  function UploadBody(cloudPath: JString, content: seq<byte>): (r: seq<byte>)
    requires IsInt(Length(cloudPath))
    ensures |r| == 4 + |JStrings.GetBytes(cloudPath)| + |content|
    ensures ReadInt(r) == Length(cloudPath) && r[|r| - |content|..] == content
  {
    ReadIntPrefix(StringField(cloudPath), content);
    StringField(cloudPath) + content
  }

  /** The buffer's first allocation and its growth step (AbstractByteBufAllocator.CALCULATE_THRESHOLD, 4 MiB). */
  const CAPACITY_THRESHOLD: int := 0x40_0000

  /** The first of p, 2p, 4p, ... that is at least n. */
  function PowerOfTwoAtLeast(p: nat, n: nat): (r: nat)
    requires p >= 1
    ensures r >= n && r >= p && (r == p || r < 2 * n)
    decreases n - p
  {
    if p >= n then p else PowerOfTwoAtLeast(2 * p, n)
  }

  /**
   * calculateNewCapacity(minNewCapacity, Integer.MAX_VALUE): below the
   * threshold the next power of two, at least 64; above it the next
   * multiple of the threshold past the request, capped at the int range.
   */
  function NewCapacity(minNew: nat): (r: nat)
    requires minNew <= INT_MAX
    ensures minNew <= r <= INT_MAX
  {
    if minNew == CAPACITY_THRESHOLD then CAPACITY_THRESHOLD
    else if minNew > CAPACITY_THRESHOLD then
      var c := minNew / CAPACITY_THRESHOLD * CAPACITY_THRESHOLD;
      if c > INT_MAX - CAPACITY_THRESHOLD then INT_MAX else c + CAPACITY_THRESHOLD
    else PowerOfTwoAtLeast(64, minNew)
  }

  /** ensureWritable: a buffer too small for the bytes written so far grows by calculateNewCapacity. */
  function Grow(capacity: nat, target: nat): (r: nat)
    requires target <= INT_MAX
    ensures r >= capacity && r >= target
    ensures capacity <= INT_MAX ==> r <= INT_MAX
  {
    if target <= capacity then capacity else NewCapacity(target)
  }

  /**
   * The capacity of Unpooled.buffer(n) after writeInt, the path's bytes and
   * the n bytes of the file have been written to it.
   */
  function UploadCapacity(pathBytes: nat, n: nat): (r: nat)
    requires 4 + pathBytes + n <= INT_MAX
    ensures 4 + pathBytes + n <= r <= INT_MAX
  {
    Grow(Grow(Grow(n, 4), 4 + pathBytes), 4 + pathBytes + n)
  }

  function Zeros(n: nat): (r: seq<byte>)
    ensures |r| == n && forall i :: 0 <= i < n ==> r[i] == 0
  {
    seq(n, _ => 0)
  }

  /**
   * The checks of UploadHandler.execute, in order: two arguments, a local
   * path Path.of accepts, a file that can be read, and a body that fits the
   * int range (past it the buffer cannot grow and writeBytes throws).
   */
  function UploadCheck(args: seq<JString>, files: JString -> LocalFile): (r: Option<Exception>)
    ensures r.None? ==> |args| == 2 && files(args[0]).Found?
    ensures r.None? ==> 4 + |JStrings.GetBytes(args[1])| + |files(args[0]).content| <= INT_MAX
    ensures r.None? ==> IsInt(Length(args[1]))
  {
    if |args| != 2 then Some(Runtime(WRONG_UPLOAD_ARGUMENTS))
    else if ParsePath(args[0]).None? then Some(Runtime(INVALID_LOCAL_PATH))
    else
      match files(args[0])
      case Missing => Some(Runtime(FILE_NOT_FOUND))
      case Unreadable => Some(Runtime(READ_FAILED))
      case Inaccessible => Some(Runtime(FILE_ACCESS_FAILED))
      case Found(content) =>
        if 4 + |JStrings.GetBytes(args[1])| + |content| > INT_MAX then Some(LengthOverflow) else None
  }

  /**
   * UploadHandler.execute as written: the body is byteBuf.array(), the whole
   * backing array, so the written bytes are followed by zeros up to the
   * buffer's capacity.
   */
  function UploadRequestAsWritten(args: seq<JString>, files: JString -> LocalFile): (r: Request)
    ensures r.Refused? <==> UploadCheck(args, files).Some?
    ensures r.Write? ==> r.payload.cmd == Upload && r.payload.body.Some?
  {
    match UploadCheck(args, files)
    case Some(e) => Refused(e)
    case None =>
      var content := files(args[0]).content;
      var body := UploadBody(args[1], content);
      var capacity := UploadCapacity(|JStrings.GetBytes(args[1])|, |content|);
      Write(Payload(Upload, Some(body + Zeros(capacity - |body|))))
  }

  /** UploadHandler.execute with the body cut to the bytes written: the cloud path field, then the file content. */
  function UploadRequest(args: seq<JString>, files: JString -> LocalFile): (r: Request)
    ensures r.Refused? <==> UploadCheck(args, files).Some?
    ensures r.Refused? ==> r == UploadRequestAsWritten(args, files)
    ensures r.Write? ==> r.payload.cmd == Upload && r.payload.body.Some?
    ensures r.Write? ==> r.payload.body.value <= UploadRequestAsWritten(args, files).payload.body.value
  {
    match UploadCheck(args, files)
    case Some(e) => Refused(e)
    case None => Write(Payload(Upload, Some(UploadBody(args[1], files(args[0]).content))))
  }

  // ---------------------------------------------------------------------
  // MOVE

  /** The MOVE body: the source path, then the destination path, each as a length-prefixed string. */
  function MoveBody(src: JString, dst: JString): (r: seq<byte>)
    requires IsInt(Length(src)) && IsInt(Length(dst))
    ensures |r| == 8 + |JStrings.GetBytes(src)| + |JStrings.GetBytes(dst)|
  {
    StringField(src) + StringField(dst)
  }

  /**
   * MoveHandler.execute: an array of 8 + src.length() + dst.length() bytes,
   * filled through a ByteBuffer with the two fields. A size past the int
   * range, or fields whose bytes do not fit the array, throw out of execute
   * and fail the promise.
   */
  function MoveRequest(args: seq<JString>): (r: Request)
    ensures |args| != 2 ==> r == Refused(Runtime(WRONG_MOVE_ARGUMENTS))
    ensures r.Write? ==> r.payload.cmd == Move && r.payload.body.Some?
  {
    if |args| != 2 then Refused(Runtime(WRONG_MOVE_ARGUMENTS))
    else
      var src, dst := args[0], args[1];
      var size := 8 + Length(src) + Length(dst);
      var written := 8 + |JStrings.GetBytes(src)| + |JStrings.GetBytes(dst)|;
      if size > INT_MAX then Refused(LengthOverflow)
      else if written > size then Refused(BufferOverflow)
      else Write(Payload(Move, Some(MoveBody(src, dst) + Zeros(size - written))))
  }

  // ---------------------------------------------------------------------
  // Properties

  /** A MOVE request is written exactly when both paths are ASCII, and its body is then exactly the two fields. */
  lemma MoveRequestAscii(src: JString, dst: JString)
    requires 8 + Length(src) + Length(dst) <= INT_MAX
    ensures MoveRequest([src, dst]).Write? <==> IsAscii(src) && IsAscii(dst)
    ensures MoveRequest([src, dst]).Write? ==> MoveRequest([src, dst]).payload.body == Some(MoveBody(src, dst))
    ensures !(IsAscii(src) && IsAscii(dst)) ==> MoveRequest([src, dst]) == Refused(BufferOverflow)
  {
    SignInResponseCodec.NonAsciiRoom(src);
    SignInResponseCodec.NonAsciiRoom(dst);
    if IsAscii(src) && IsAscii(dst) {
      assert MoveBody(src, dst) + Zeros(0) == MoveBody(src, dst);
    }
  }

  /**
   * As written, a small upload carries padding: the path "a" and a file of
   * ten bytes give a 64-byte body, 49 bytes of it zeros after the content.
   */
  lemma UploadPadded(files: JString -> LocalFile)
    requires files("f").Found? && |files("f").content| == 10
    ensures var r := UploadRequestAsWritten(["f", "a"], files);
      && r.Write? && |r.payload.body.value| == 64
      && r.payload.body.value[15..] == Zeros(49)
  {
    assert ParsePath("f").Some?;
    assert JStrings.GetBytes("a") == [0x61];
    assert UploadCapacity(1, 10) == 64 by {
      assert Grow(10, 4) == 10;
      assert Grow(10, 5) == 10;
      assert NewCapacity(15) == 64;
    }
  }

  /** Without padding, the upload body is exactly the path field followed by the content. */
  lemma UploadBodyExact(args: seq<JString>, files: JString -> LocalFile)
    requires UploadCheck(args, files).None?
    ensures UploadRequest(args, files) == Write(Payload(Upload, Some(StringField(args[1]) + files(args[0]).content)))
    ensures var n := 4 + |JStrings.GetBytes(args[1])| + |files(args[0]).content|;
      |UploadRequest(args, files).payload.body.value| < |UploadRequestAsWritten(args, files).payload.body.value|
      <==> UploadCapacity(|JStrings.GetBytes(args[1])|, |files(args[0]).content|) > n
  {
  }
}
