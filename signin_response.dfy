/**
 * SignInResponse, the body of a SIGN_IN reply (data/SignInResponse.java, and
 * its identical copy nio/SignInResponse.java): a status byte, then the
 * UserData on success or an optional length-prefixed message on failure.
 */
module SignInResponseCodec {
  import opened Wrappers
  import opened Bytes
  import opened JStrings
  import opened Cursor
  import opened UserDataCodec

  datatype Status = Success | Failure

  /** The status byte: SUCCESS is 1, FAILURE is 2. */
  function StatusVal(s: Status): byte
  {
    match s
    case Success => 1
    case Failure => 2
  }

  /** Status.getStatus: the status with that byte, or "Unknown status". */
  function GetStatus(b: byte): (r: Result<Status, Exception>)
    ensures r.Ok? <==> b == 1 || b == 2
    ensures r.Ok? ==> StatusVal(r.value) == b
    ensures r.Err? ==> r.error == Runtime("Unknown status")
  {
    if b == StatusVal(Success) then Ok(Success)
    else if b == StatusVal(Failure) then Ok(Failure)
    else Err(Runtime("Unknown status"))
  }

  /** The three fields of the class; `success` and `failure` build the only two shapes. */
  datatype SignInResponse = SignInResponse(status: Status, userData: Option<UserData>, message: Option<JString>)

  /** SignInResponse.success(userData) */
  function SuccessOf(u: UserData): (r: SignInResponse)
    ensures IsSuccess(r) && !IsFailure(r) && r.userData == Some(u)
  {
    SignInResponse(Success, Some(u), None)
  }

  /** SignInResponse.failure(message) */
  function FailureOf(message: Option<JString>): (r: SignInResponse)
    ensures IsFailure(r) && !IsSuccess(r) && r.message == message
  {
    SignInResponse(Failure, None, message)
  }

  predicate IsSuccess(r: SignInResponse) { r.status == Success }
  predicate IsFailure(r: SignInResponse) { r.status == Failure }

  /** A response as the factories make it: a success carries user data, a failure does not. */
  predicate WellFormed(r: SignInResponse)
  {
    || (r.status == Success && r.userData.Some? && r.message == None)
    || (r.status == Failure && r.userData == None)
  }

  /** Exactly one of isSuccess and isFailure holds. */
  lemma SuccessXorFailure(r: SignInResponse)
    ensures IsSuccess(r) != IsFailure(r)
  {
  }

  /** What getBytes needs: the user data, or the message length, fits Java ints. */
  predicate Encodable(r: SignInResponse)
  {
    && WellFormed(r)
    && (IsSuccess(r) ==> UserDataCodec.Encodable(r.userData.value) && 1 + UserDataLength(r.userData.value) <= INT_MAX)
    && (IsFailure(r) && r.message.Some? ==> 5 + |GetBytes(r.message.value)| <= INT_MAX)
  }

  /** getLength() / getByteLength(); the message counts length(), characters, not bytes. */
  function ResponseLength(r: SignInResponse): (n: nat)
    requires WellFormed(r)
    ensures IsSuccess(r) ==> n == 1 + UserDataLength(r.userData.value)
    ensures IsFailure(r) && r.message == None ==> n == 1
    ensures IsFailure(r) && r.message.Some? ==> n == 5 + Length(r.message.value)
  {
    if r.status == Success then 1 + UserDataLength(r.userData.value)
    else 1 + (if r.message.Some? then 4 + Length(r.message.value) else 0)
  }

  /**
   * getBytes(): the status byte, then the user data or the message field,
   * into an array of getLength() bytes. A message with a non-ASCII character
   * has more bytes than that array has room for, and the put overflows it.
   */
  function ResponseBytes(r: SignInResponse): (b: Result<seq<byte>, Exception>)
    requires Encodable(r)
    ensures b.Ok? ==> |b.value| == ResponseLength(r) && b.value[0] == StatusVal(r.status)
    ensures IsSuccess(r) ==> b == Ok([1] + UserDataBytes(r.userData.value))
    ensures IsFailure(r) && r.message == None ==> b == Ok([2])
    ensures IsFailure(r) && r.message.Some? ==>
      (b.Ok? <==> IsAscii(r.message.value)) &&
      (b.Ok? ==> b.value == [2] + StringField(r.message.value)) &&
      (b.Err? ==> b.error == BufferOverflow)
  {
    if r.status == Success then Ok([StatusVal(Success)] + UserDataBytes(r.userData.value))
    else if r.message == None then Ok([StatusVal(Failure)])
    else
      var m := r.message.value;
      if |GetBytes(m)| > Length(m) then
        NonAsciiRoom(m);
        Err(BufferOverflow)
      else
        NonAsciiRoom(m);
        Ok([StatusVal(Failure)] + StringField(m))
  }

  /** The bytes of a string exceed its length() exactly when it is not ASCII. */
  lemma NonAsciiRoom(m: JString)
    ensures |GetBytes(m)| >= Length(m)
    ensures |GetBytes(m)| > Length(m) <==> !IsAscii(m)
  {
    if IsAscii(m) {
      AsciiRoundTrip(m);
    } else {
      NonAsciiLonger(m);
    }
  }

  /**
   * fromBytes: the status byte; on success a UserData; on failure a message
   * field if any bytes remain, else a null message.
   */
  function ParseResponse(s: seq<byte>): (r: ParseResult<SignInResponse>)
    ensures r.Ok? ==> WellFormed(r.value.value)
    ensures s == [] ==> r == Err(Underflow)
    ensures s != [] && s[0] != 1 && s[0] != 2 ==> r == Err(Runtime("Unknown status"))
    ensures s == [2] ==> r == Ok(Parsed(FailureOf(None), []))
  {
    match ParseByte(s)
    case Err(e) => Err(e)
    case Ok(b) =>
      match GetStatus(b.value)
      case Err(e) => Err(e)
      case Ok(Success) =>
        (match ParseUserData(b.rest)
         case Err(e) => Err(e)
         case Ok(u) => Ok(Parsed(SuccessOf(u.value), u.rest)))
      case Ok(Failure) =>
        if b.rest == [] then Ok(Parsed(FailureOf(None), []))
        else
          match ParseString(b.rest)
          case Err(e) => Err(e)
          case Ok(m) => Ok(Parsed(FailureOf(Some(m.value)), m.rest))
  }

  /** fromBytes(getBytes(r)) preserves the status and the user data or message, for ASCII strings. */
  lemma ResponseRoundTrip(r: SignInResponse)
    requires Encodable(r)
    requires r.userData.Some? ==> IsAscii(r.userData.value.login) && IsAscii(r.userData.value.password)
    requires r.message.Some? ==> IsAscii(r.message.value)
    ensures ResponseBytes(r).Ok?
    ensures ParseResponse(ResponseBytes(r).value) == Ok(Parsed(r, []))
  {
    var b := ResponseBytes(r).value;
    if r.status == Success {
      UserDataRoundTrip(r.userData.value, []);
      assert b[1..] == UserDataBytes(r.userData.value) + [];
    } else if r.message.Some? {
      StringFieldRoundTrip(r.message.value, []);
      assert b[1..] == StringField(r.message.value) + [];
    }
  }

  /** SignInResponse.fromBytes(byteBuffer): reads sequentially from the buffer. */
  method ReadResponse(buf: ByteCursor) returns (r: Result<SignInResponse, Exception>)
    requires buf.Valid()
    modifies buf
    ensures buf.Valid()
    ensures var p := ParseResponse(old(buf.Remaining()));
      && (p.Ok? ==> r == Ok(p.value.value) && buf.Remaining() == p.value.rest)
      && (p.Err? ==> r == Err(p.error))
  {
    var b := buf.Get();
    if b.Err? {
      return Err(b.error);
    }
    var status := GetStatus(b.value);
    if status.Err? {
      return Err(status.error);
    }
    if status.value == Success {
      var u := ReadUserData(buf);
      if u.Err? {
        return Err(u.error);
      }
      return Ok(SuccessOf(u.value));
    }
    var message: Option<JString> := None;
    if buf.HasRemaining() {
      var m := buf.GetString();
      if m.Err? {
        return Err(m.error);
      }
      message := Some(m.value);
    }
    r := Ok(FailureOf(message));
  }
}
