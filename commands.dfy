/** The command enumeration (data/Cmd.java): wire tags and name lookup. */
module Commands {
  import opened Wrappers
  import opened Bytes
  import opened JStrings
  import opened Cursor

  datatype Cmd = Message | Ping | Time | SignUp | SignIn | SignOut | Upload | Download | Move

  /** Cmd.values(), in declaration order. */
  const Values: seq<Cmd> := [Message, Ping, Time, SignUp, SignIn, SignOut, Upload, Download, Move]

  /** The enum constant's name, Cmd.name(). */
  function Name(c: Cmd): (r: JString)
    ensures r != []
    ensures forall i :: 0 <= i < |r| ==> r[i] == '_' || 'A' <= r[i] <= 'Z'
  {
    match c
    case Message => "MESSAGE"
    case Ping => "PING"
    case Time => "TIME"
    case SignUp => "SIGN_UP"
    case SignIn => "SIGN_IN"
    case SignOut => "SIGN_OUT"
    case Upload => "UPLOAD"
    case Download => "DOWNLOAD"
    case Move => "MOVE"
  }

  /** The one-byte wire tag of each command. */
  function Tag(c: Cmd): byte
  {
    match c
    case Message => 0
    case Ping => 1
    case Time => 2
    case SignUp => 3
    case SignIn => 4
    case SignOut => 5
    case Upload => 6
    case Download => 7
    case Move => 8
  }

  const BYTE_LENGTH: nat := 1

  /** getBytes(): the tag as a one-byte array; its length is getByteLength(). */
  function GetBytes(c: Cmd): (r: seq<byte>)
    ensures |r| == BYTE_LENGTH
  {
    [Tag(c)]
  }

  /** The loop of readCmd: the first command of `cs` whose tag is `b`. */
  function FindByTag(cs: seq<Cmd>, b: byte): (r: Result<Cmd, Exception>)
    ensures r.Ok? ==> r.value in cs && Tag(r.value) == b
    ensures r.Err? ==> r.error == Runtime("Unknown cmd") && forall c :: c in cs ==> Tag(c) != b
  {
    if cs == [] then Err(Runtime("Unknown cmd"))
    else if GetBytes(cs[0]) == [b] then Ok(cs[0])
    else FindByTag(cs[1..], b)
  }

  /** The command whose tag is `b`, or the "Unknown cmd" exception. */
  function CmdOfTag(b: byte): (r: Result<Cmd, Exception>)
    ensures r.Ok? ==> Tag(r.value) == b
    ensures r.Err? ==> r.error == Runtime("Unknown cmd") && forall c :: Tag(c) != b
  {
    AllInValues();
    FindByTag(Values, b)
  }

  /** Every command is in Values. */
  lemma ValuesComplete(c: Cmd)
    ensures c in Values
  {
  }

  /** Values lists every command. */
  lemma AllInValues()
    ensures forall c: Cmd :: c in Values
  {
    forall c: Cmd ensures c in Values {
      ValuesComplete(c);
    }
  }

  /** Tags are distinct: the tag table is injective. */
  lemma TagsDistinct(c: Cmd, d: Cmd)
    ensures Tag(c) == Tag(d) ==> c == d
  {
  }

  /** The i-th value carries tag i. */
  lemma TagOfIndex(i: nat)
    requires i < |Values|
    ensures Tag(Values[i]) == i
  {
  }

  /** Looking a command's own tag up finds that command: readCmd(getBytes(c)) == c. */
  lemma TagDecodes(c: Cmd)
    ensures CmdOfTag(Tag(c)) == Ok(c)
  {
    ValuesComplete(c);
    var r := CmdOfTag(Tag(c));
    if r.Ok? {
      TagsDistinct(c, r.value);
    }
  }

  /** Exactly the bytes 0..8 are tags. */
  lemma TagsAreSmall(b: byte)
    ensures CmdOfTag(b).Ok? <==> b <= 8
  {
    if b <= 8 {
      TagOfIndex(b);
      assert Values[b] in Values;
    }
    var r := CmdOfTag(b);
    if r.Ok? {
      assert Tag(r.value) <= 8;
    }
  }

  /**
   * Decoding a tag succeeds exactly for 0..8 and inverts Tag: readCmd(getBytes(c)) == c,
   * and every other byte is the "Unknown cmd" exception.
   */
  lemma TagRoundTrip(c: Cmd, b: byte)
    ensures CmdOfTag(Tag(c)) == Ok(c)
    ensures CmdOfTag(b).Ok? <==> b <= 8
    ensures CmdOfTag(b).Ok? ==> Tag(CmdOfTag(b).value) == b
    ensures b > 8 ==> CmdOfTag(b) == Err(Runtime("Unknown cmd"))
  {
    TagDecodes(c);
    TagsAreSmall(b);
  }

  /** readCmd on a byte string: one byte consumed, then the tag lookup. */
  function ParseCmd(s: seq<byte>): (r: ParseResult<Cmd>)
    ensures s == [] ==> r == Err(Underflow)
    ensures s != [] ==> (r.Ok? <==> s[0] <= 8)
    ensures r.Ok? ==> Tag(r.value.value) == s[0] && r.value.rest == s[1..]
  {
    match ParseByte(s)
    case Err(e) => Err(e)
    case Ok(p) =>
      TagRoundTrip(Message, p.value);
      match CmdOfTag(p.value)
      case Err(e) => Err(e)
      case Ok(c) => Ok(Parsed(c, p.rest))
  }

  /** Cmd.readCmd(in): reads exactly one byte from the buffer and looks its tag up. */
  method ReadCmd(buf: ByteCursor) returns (r: Result<Cmd, Exception>)
    requires buf.Valid()
    modifies buf
    ensures buf.Valid()
    ensures var p := ParseCmd(old(buf.Remaining()));
      && (p.Ok? ==> r == Ok(p.value.value) && buf.Remaining() == p.value.rest)
      && (p.Err? ==> r == Err(p.error))
  {
    var b := buf.Get();
    if b.Err? {
      return Err(b.error);
    }
    r := CmdOfTag(b.value);
  }

  /** The name getCmd compares with: the constant's name split at '_' and joined again. */
  function Formatted(c: Cmd): (r: JString)
    ensures '_' !in r
  {
    RemoveUnderscoresClean(Name(c));
    RemoveUnderscores(Name(c))
  }

  /** The formatted name of each command: SIGN_UP, SIGN_IN and SIGN_OUT lose their underscore. */
  lemma FormattedOf(c: Cmd)
    ensures Formatted(c) == match c
      case Message => "MESSAGE"
      case Ping => "PING"
      case Time => "TIME"
      case SignUp => "SIGNUP"
      case SignIn => "SIGNIN"
      case SignOut => "SIGNOUT"
      case Upload => "UPLOAD"
      case Download => "DOWNLOAD"
      case Move => "MOVE"
  {
    if c == SignUp || c == SignIn || c == SignOut {
      FormattedSigned(c);
    } else {
      FormattedPlain(c);
    }
  }

  /** SIGN_UP, SIGN_IN and SIGN_OUT lose their one underscore. */
  lemma FormattedSigned(c: Cmd)
    requires c == SignUp || c == SignIn || c == SignOut
    ensures c == SignUp ==> Formatted(c) == "SIGNUP"
    ensures c == SignIn ==> Formatted(c) == "SIGNIN"
    ensures c == SignOut ==> Formatted(c) == "SIGNOUT"
  {
    if c == SignUp {
      RemoveUnderscoresJoin("SIGN", "UP");
      assert "SIGN" + ['_'] + "UP" == Name(c);
    } else if c == SignIn {
      FormattedSignIn();
    } else {
      FormattedSignOut();
    }
  }

  lemma FormattedSignIn()
    ensures Formatted(SignIn) == "SIGNIN"
  {
    RemoveUnderscoresJoin("SIGN", "IN");
    assert "SIGN" + ['_'] + "IN" == Name(SignIn);
  }

  lemma FormattedSignOut()
    ensures Formatted(SignOut) == "SIGNOUT"
  {
    RemoveUnderscoresJoin("SIGN", "OUT");
    assert "SIGN" + ['_'] + "OUT" == Name(SignOut);
  }

  /** The other names have no underscore and are kept as they are. */
  lemma FormattedPlain(c: Cmd)
    requires c != SignUp && c != SignIn && c != SignOut
    ensures '_' !in Name(c) && Formatted(c) == Name(c)
  {
    RemoveUnderscoresKeeps(Name(c));
  }

  /** Formatted names are distinct, so at most one command matches a name. */
  lemma FormattedDistinct(c: Cmd, d: Cmd)
    ensures Formatted(c) == Formatted(d) ==> c == d
  {
    FormattedOf(c);
    FormattedOf(d);
  }

  /** The loop of getCmd: the first command of `cs` whose formatted name is `name`. */
  function FindByName(cs: seq<Cmd>, name: JString): (r: Result<Cmd, Exception>)
    ensures r.Ok? ==> r.value in cs && Formatted(r.value) == name
    ensures r.Err? ==> r.error == Runtime("Unknown cmd") && forall c :: c in cs ==> Formatted(c) != name
  {
    if cs == [] then Err(Runtime("Unknown cmd"))
    else if Formatted(cs[0]) == name then Ok(cs[0])
    else FindByName(cs[1..], name)
  }

  /** Cmd.getCmd(name): upper-cases the name and matches it against the formatted names. */
  function GetCmd(name: JString): (r: Result<Cmd, Exception>)
    ensures r.Ok? ==> Formatted(r.value) == ToUpperCase(name)
    ensures r.Err? ==> r.error == Runtime("Unknown cmd") && forall c :: Formatted(c) != ToUpperCase(name)
  {
    AllInValues();
    FindByName(Values, ToUpperCase(name))
  }

  /**
   * getCmd accepts a name exactly when its upper-case form is a command's name
   * without underscores, and then returns that command.
   */
  lemma GetCmdCharacterised(name: JString, c: Cmd)
    ensures GetCmd(name) == Ok(c) <==> ToUpperCase(name) == Formatted(c)
    ensures GetCmd(name).Err? <==> forall d :: ToUpperCase(name) != Formatted(d)
  {
    ValuesComplete(c);
    if GetCmd(name).Ok? {
      FormattedDistinct(c, GetCmd(name).value);
    }
    forall d | GetCmd(name).Err? ensures ToUpperCase(name) != Formatted(d) {
      ValuesComplete(d);
    }
  }

  /** getCmd ignores letter case: any spelling that upper-cases to "SIGNUP" names SIGN_UP. */
  lemma GetCmdSignUp(name: JString)
    requires ToUpperCase(name) == "SIGNUP"
    ensures GetCmd(name) == Ok(SignUp)
  {
    FormattedOf(SignUp);
    GetCmdCharacterised(name, SignUp);
  }

  /** "signup", "SignUp" and "SIGNUP" all name SIGN_UP. */
  lemma GetCmdSignUpExamples()
    ensures GetCmd("signup") == Ok(SignUp)
    ensures GetCmd("SignUp") == Ok(SignUp)
    ensures GetCmd("SIGNUP") == Ok(SignUp)
  {
    assert ToUpperCase("signup") == "SIGNUP";
    GetCmdSignUp("signup");
    assert ToUpperCase("SignUp") == "SIGNUP";
    GetCmdSignUp("SignUp");
    assert ToUpperCase("SIGNUP") == "SIGNUP";
    GetCmdSignUp("SIGNUP");
  }

  /** "sign_up" is unknown: the input keeps its underscore and no formatted name has one. */
  lemma GetCmdUnderscoreUnknown(name: JString)
    requires '_' in name
    ensures GetCmd(name) == Err(Runtime("Unknown cmd"))
  {
    var u := ToUpperCase(name);
    var i :| 0 <= i < |name| && name[i] == '_';
    assert u[i] == '_';
    forall d ensures u != Formatted(d) {
      RemoveUnderscoresClean(Name(d));
    }
    GetCmdCharacterised(name, Message);
  }
}
