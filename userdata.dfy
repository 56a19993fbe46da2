/**
 * UserData, the login and password pair of SIGN_UP and SIGN_IN
 * (data/UserData.java, and its identical copy nio/UserData.java): two strings,
 * each written as an int length followed by the string's bytes.
 */
module UserDataCodec {
  import opened Wrappers
  import opened Bytes
  import opened JStrings
  import opened Cursor

  datatype UserData = UserData(login: JString, password: JString)

  /** The string lengths and the whole record fit Java ints. */
  predicate Encodable(u: UserData)
  {
    8 + |GetBytes(u.login)| + |GetBytes(u.password)| <= INT_MAX
  }

  /** getLength() / getByteLength(): two int fields and the two strings' bytes. */
  function UserDataLength(u: UserData): (r: nat)
    ensures r == 4 + |GetBytes(u.login)| + 4 + |GetBytes(u.password)|
    ensures r >= 8 + Length(u.login) + Length(u.password)
  {
    4 + |GetBytes(u.login)| + 4 + |GetBytes(u.password)|
  }

  /**
   * One length-prefixed string as getBytes writes it: the length field holds
   * length() (characters), the bytes that follow are getBytes().
   */
  function StringField(s: JString): (r: seq<byte>)
    requires IsInt(Length(s))
    ensures |r| == 4 + |GetBytes(s)|
    ensures ReadInt(r) == Length(s) && r[4..] == GetBytes(s)
  {
    IntRoundTrip(Length(s), GetBytes(s));
    IntBytes(Length(s)) + GetBytes(s)
  }

  /** getBytes(): the login field, then the password field. */
  function UserDataBytes(u: UserData): (r: seq<byte>)
    requires Encodable(u)
    ensures |r| == UserDataLength(u)
    ensures r == StringField(u.login) + StringField(u.password)
  {
    StringField(u.login) + StringField(u.password)
  }

  /** fromBytes: stringFromBytes for the login, then again for the password. */
  function ParseUserData(s: seq<byte>): (r: ParseResult<UserData>)
    ensures r.Ok? <==> ParseString(s).Ok? && ParseString(ParseString(s).value.rest).Ok?
    ensures r.Ok? ==>
      var l := ParseString(s).value;
      var p := ParseString(l.rest).value;
      r.value == Parsed(UserData(l.value, p.value), p.rest)
  {
    match ParseString(s)
    case Err(e) => Err(e)
    case Ok(l) =>
      match ParseString(l.rest)
      case Err(e) => Err(e)
      case Ok(p) => Ok(Parsed(UserData(l.value, p.value), p.rest))
  }

  /** Reading a string field written for an ASCII string gives the string back and stops right after it. */
  lemma StringFieldRoundTrip(s: JString, rest: seq<byte>)
    requires IsAscii(s) && IsInt(Length(s))
    ensures ParseString(StringField(s) + rest) == Ok(Parsed(s, rest))
  {
    AsciiDecode(s);
    FieldLength(s, rest);
    ParseBytesPrefix(GetBytes(s), rest);
  }

  /** The length field reads back as length(), and the string's bytes follow it. */
  lemma FieldLength(s: JString, rest: seq<byte>)
    requires IsInt(Length(s))
    ensures ParseInt(StringField(s) + rest) == Ok(Parsed(Length(s), GetBytes(s) + rest))
  {
    var g := GetBytes(s);
    assert StringField(s) + rest == IntBytes(Length(s)) + (g + rest);
    ParseIntBytes(Length(s), g + rest);
  }

  /**
   * fromBytes(getBytes(u)) == u for ASCII strings, and the buffer is left
   * just after the password: trailing bytes are untouched, so exactly
   * getLength() bytes are consumed.
   */
  lemma UserDataRoundTrip(u: UserData, rest: seq<byte>)
    requires IsAscii(u.login) && IsAscii(u.password) && Encodable(u)
    ensures ParseUserData(UserDataBytes(u) + rest) == Ok(Parsed(u, rest))
  {
    var tail := StringField(u.password) + rest;
    var s := StringField(u.login) + tail;
    assert UserDataBytes(u) + rest == s;
    StringFieldRoundTrip(u.login, tail);
    StringFieldRoundTrip(u.password, rest);
    ParseTwoFields(s, u.login, tail, u.password, rest);
  }

  /** Two string fields read one after the other make the user data. */
  lemma ParseTwoFields(s: seq<byte>, login: JString, tail: seq<byte>, password: JString, rest: seq<byte>)
    requires ParseString(s) == Ok(Parsed(login, tail)) && ParseString(tail) == Ok(Parsed(password, rest))
    ensures ParseUserData(s) == Ok(Parsed(UserData(login, password), rest))
  {
  }

  /**
   * The length fields count characters, not bytes: a login with a non-ASCII
   * character announces fewer bytes than getBytes() writes.
   */
  lemma NonAsciiLoginMisframed(u: UserData)
    requires !IsAscii(u.login) && Encodable(u)
    ensures ReadInt(UserDataBytes(u)) < |GetBytes(u.login)|
  {
    NonAsciiLonger(u.login);
    ReadIntPrefix(StringField(u.login), StringField(u.password));
  }

  /** UserData.fromBytes(byteBuffer): consumes the two fields from the caller's buffer. */
  method ReadUserData(buf: ByteCursor) returns (r: Result<UserData, Exception>)
    requires buf.Valid()
    modifies buf
    ensures buf.Valid()
    ensures var p := ParseUserData(old(buf.Remaining()));
      && (p.Ok? ==> r == Ok(p.value.value) && buf.Remaining() == p.value.rest)
      && (p.Err? ==> r == Err(p.error))
  {
    var login := buf.GetString();
    if login.Err? {
      return Err(login.error);
    }
    var password := buf.GetString();
    if password.Err? {
      return Err(password.error);
    }
    r := Ok(UserData(login.value, password.value));
  }
}
