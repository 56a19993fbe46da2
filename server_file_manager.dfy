/**
 * The server's FileManager (server/.../file/manager/FileManager.java): the
 * accounts of the earlier revision plus a folder per user under the server
 * root, a working directory per user, and uploads confined to the user's
 * folder.
 *
 * The file system is a parameter: whether createUserFolder's checks on the
 * disk succeed is an oracle, and the files an upload may write are a map
 * from absolute names to contents.
 */
module ServerFileManager {
  import opened Wrappers
  import opened Bytes
  import opened JStrings
  import opened UserDataCodec
  import opened Auth
  import opened Paths

  /** The Pair<Boolean, String> the public methods return; uploadFile's message may be null. */
  datatype Reply = Reply(success: bool, message: Option<JString>)

  const FOLDER_FAILED: JString := "Failed to create user folder"
  const UNKNOWN_SESSION: JString := "Unknown session. Please sign up or sign in and try again."
  const INVALID_PATH: JString := "Invalid path passed. You have no access to files outside your folder."
  const WRITE_FAILED: JString := "Error occurred while trying to write a file on server."

  /** The server root as the constructor stores it: absolute and normalised. */
  predicate IsRoot(root: Path)
  {
    root.absolute && IsNormal(root)
  }

  /** The FileManager's maps: the accounts, and each user's folder and working directory. */
  datatype Server = Server(acc: Accounts, userRoot: map<Login, Path>, userWorkingDirectory: map<Login, Path>)

  // ---------------------------------------------------------------------
  // createUserFolder

  /** new File(root, login).toPath(): the login's names under the root, not normalised. */
  function UserFile(root: Path, login: Login): (r: Path)
    ensures r.absolute == root.absolute && r.names == root.names + SplitNames(login)
  {
    Path(root.absolute, root.names + SplitNames(login))
  }

  /** The containment check as written: the normalised folder starts with the root. */
  predicate FolderCheckAsWritten(root: Path, login: Login)
  {
    StartsWith(Normalize(UserFile(root, login)), root)
  }

  /**
   * The check with the fix: the login must be one plain name, so that the
   * folder is a child of the root and no two logins share one.
   */
  predicate FolderCheck(login: Login)
  {
    IsPlainName(login)
  }

  lemma PlainSplit(login: Login)
    requires IsName(login)
    ensures SplitNames(login) == [login]
  {
    NameAtOfName(login, []);
    assert login + [] == login;
    assert login[0] in login;
    assert login[|login|..] == [];
  }

  /** A plain login's folder is the root plus that one name, already normal. */
  lemma PlainFolder(root: Path, login: Login)
    requires IsRoot(root) && FolderCheck(login)
    ensures UserFile(root, login) == Path(true, root.names + [login])
    ensures IsNormal(UserFile(root, login)) && Normalize(UserFile(root, login)) == UserFile(root, login)
    ensures StrictlyUnder(UserFile(root, login), root)
  {
    PlainSplit(login);
    var f := UserFile(root, login);
    assert NormalNames(true, f.names) by {
      forall i | 0 <= i < |f.names| ensures f.names[i] != "." && f.names[i] != ".." {
        if i < |root.names| {
          assert f.names[i] == root.names[i];
        }
      }
    }
    NormalizeIdempotent(f);
  }

  /** The fixed check only narrows the one as written: what it accepts, the original accepted. */
  lemma FolderCheckNarrows(root: Path, login: Login)
    requires IsRoot(root) && FolderCheck(login)
    ensures FolderCheckAsWritten(root, login)
  {
    PlainFolder(root, login);
  }

  /**
   * createUserFolder(login): the check, then the disk (`ready` says whether
   * the folder exists or was made and is a readable, writable directory);
   * on success the working directory becomes the normalised folder.
   */
  function CreateUserFolderResult(s: Server, root: Path, login: Login, ready: bool): (r: (Server, Option<Path>))
    ensures r.1.Some? <==> FolderCheck(login) && ready
    ensures r.1.Some? ==>
      && r.1.value == UserFile(root, login)
      && r.0 == s.(userWorkingDirectory := s.userWorkingDirectory[login := Normalize(UserFile(root, login))])
    ensures r.1.None? ==> r.0 == s
  {
    if !FolderCheck(login) || !ready then (s, None)
    else
      var file := UserFile(root, login);
      (s.(userWorkingDirectory := s.userWorkingDirectory[login := Normalize(file)]), Some(file))
  }

  /** userRoot.computeIfAbsent(login, createUserFolder): a stored folder is reused; a null result is not stored. */
  function ComputeFolder(s: Server, root: Path, login: Login, ready: bool): (r: (Server, Option<Path>))
    ensures login in s.userRoot ==> r == (s, Some(s.userRoot[login]))
    ensures login !in s.userRoot ==> (r.1.Some? <==> FolderCheck(login) && ready)
    ensures r.1.None? ==> r.0 == s
    ensures r.1.Some? ==> login in r.0.userRoot && r.0.userRoot[login] == r.1.value
  {
    if login in s.userRoot then (s, Some(s.userRoot[login]))
    else
      var (t, folder) := CreateUserFolderResult(s, root, login, ready);
      if folder.None? then (t, None) else (t.(userRoot := t.userRoot[login := folder.value]), folder)
  }

  // ---------------------------------------------------------------------
  // The server state and its invariant

  /**
   * The accounts invariant, one folder and one working directory for
   * exactly the registered users, each folder the root plus the plain login,
   * and the working directory that folder.
   */
  predicate Consistent(root: Path, s: Server)
  {
    && IsRoot(root)
    && Auth.Valid(s.acc)
    && s.userRoot.Keys == s.acc.users.Keys
    && s.userWorkingDirectory.Keys == s.acc.users.Keys
    && (forall l :: l in s.userRoot ==>
          && FolderCheck(l)
          && s.userRoot[l] == UserFile(root, l)
          && l in s.userWorkingDirectory && s.userWorkingDirectory[l] == s.userRoot[l])
  }

  lemma EmptyServerValid(root: Path)
    requires IsRoot(root)
    ensures Consistent(root, Server(Empty, map[], map[]))
  {
  }

  /** The folders of two different users share no path: each user's files are out of the other's reach. */
  lemma FoldersDisjoint(root: Path, s: Server, l1: Login, l2: Login, p: Path)
    requires Consistent(root, s) && l1 in s.userRoot && l2 in s.userRoot && l1 != l2
    ensures !(StartsWith(p, s.userRoot[l1]) && StartsWith(p, s.userRoot[l2]))
  {
    PlainFolder(root, l1);
    PlainFolder(root, l2);
    var k := |root.names|;
    assert s.userRoot[l1].names[k] == l1 && |s.userRoot[l1].names| == k + 1;
    assert s.userRoot[l2].names[k] == l2 && |s.userRoot[l2].names| == k + 1;
  }

  // ---------------------------------------------------------------------
  // startSession, signUp, signIn, signOut

  /**
   * The working directory startSession reports: "/" resolved against the
   * working directory relative to the user's folder.
   */
  function WorkingDirectoryString(folder: Path, wd: Path): JString
    requires folder.absolute && wd.absolute
  {
    RelativizeDefined(folder, wd);
    PathString(Resolve(Path(true, []), Relativize(folder, wd).value))
  }

  /** startSession: the bookkeeping of Auth.Bind, then "login /dir" on success. */
  function StartSessionResult(s: Server, address: Address, login: Login): (r: (Server, Reply))
    requires login in s.userRoot && login in s.userWorkingDirectory
    requires s.userRoot[login].absolute && s.userWorkingDirectory[login].absolute
    ensures r.1.success <==> Bind(s.acc, address, login).Ok?
    ensures !r.1.success ==> r.0 == s && r.1.message == Some(Bind(s.acc, address, login).error)
  {
    match Bind(s.acc, address, login)
    case Err(m) => (s, Reply(false, Some(m)))
    case Ok(b) =>
      (s.(acc := b), Reply(true, Some(login + " " + WorkingDirectoryString(s.userRoot[login], s.userWorkingDirectory[login]))))
  }

  /** A session starting in the user's own folder is reported as "login /". */
  lemma FreshSessionMessage(folder: Path)
    requires folder.absolute
    ensures WorkingDirectoryString(folder, folder) == "/"
  {
  }

  /**
   * signUp: the address and login checks; then the credential is stored and
   * the folder made, and if that fails the credential is removed again;
   * otherwise a session starts.
   */
  function SignUpResult(root: Path, s: Server, address: Address, u: UserData, ready: bool): (r: (Server, Reply))
    requires Consistent(root, s)
    ensures address in s.acc.userBySession ==> r == (s, Reply(false, Some(ADDRESS_IN_SESSION)))
    ensures address !in s.acc.userBySession && u.login in s.acc.users ==> r == (s, Reply(false, Some(LOGIN_TAKEN)))
    ensures r.1.success ==>
      && r.0.acc.users == s.acc.users[u.login := u.password]
      && r.0.acc.userBySession == s.acc.userBySession[address := u.login]
      && u.login in r.0.userRoot
  {
    if address in s.acc.userBySession then (s, Reply(false, Some(ADDRESS_IN_SESSION)))
    else if u.login in s.acc.users then (s, Reply(false, Some(LOGIN_TAKEN)))
    else
      var s1 := s.(acc := s.acc.(users := s.acc.users[u.login := u.password]));
      var (s2, folder) := ComputeFolder(s1, root, u.login, ready);
      if folder.None? then (s2.(acc := s2.acc.(users := s2.acc.users - {u.login})), Reply(false, Some(FOLDER_FAILED)))
      else
        PlainFolder(root, u.login);
        StartSessionResult(s2, address, u.login)
  }

  /** A fresh, plain login whose folder can be made: the credential, the folder and the session are all added. */
  lemma SignUpFresh(root: Path, s: Server, address: Address, u: UserData)
    requires Consistent(root, s)
    requires address !in s.acc.userBySession && u.login !in s.acc.users && FolderCheck(u.login)
    ensures var f := UserFile(root, u.login);
      SignUpResult(root, s, address, u, true) ==
        (Server(s.acc.(users := s.acc.users[u.login := u.password],
                       userBySession := s.acc.userBySession[address := u.login],
                       sessionByUser := s.acc.sessionByUser[u.login := address]),
                s.userRoot[u.login := f],
                s.userWorkingDirectory[u.login := f]),
         Reply(true, Some(u.login + " /")))
  {
    assert u.login !in s.userRoot;
    assert u.login !in s.acc.sessionByUser;
    var f := UserFile(root, u.login);
    PlainFolder(root, u.login);
    FreshSessionMessage(f);
    assert u.login + " " + "/" == u.login + " /";
  }

  /** A new login whose folder cannot be made: the credential is rolled back and nothing changes. */
  lemma SignUpRolledBack(root: Path, s: Server, address: Address, u: UserData, ready: bool)
    requires Consistent(root, s)
    requires address !in s.acc.userBySession && u.login !in s.acc.users && !(FolderCheck(u.login) && ready)
    ensures SignUpResult(root, s, address, u, ready) == (s, Reply(false, Some(FOLDER_FAILED)))
  {
    assert u.login !in s.userRoot;
    assert s.acc.users[u.login := u.password] - {u.login} == s.acc.users;
  }

  /**
   * signUp succeeds exactly when the address has no session, the login is
   * new and plain and its folder can be made; the reply is then "login /".
   * A refusal, including a rolled-back folder failure, changes nothing, so
   * counters and bans are never touched.
   */
  lemma SignUpSucceeds(root: Path, s: Server, address: Address, u: UserData, ready: bool)
    requires Consistent(root, s)
    ensures var r := SignUpResult(root, s, address, u, ready);
      && (r.1.success <==> address !in s.acc.userBySession && u.login !in s.acc.users && FolderCheck(u.login) && ready)
      && r.1.message.Some?
      && (r.1.success ==>
            && r.1.message == Some(u.login + " /")
            && r.0.acc.users == s.acc.users[u.login := u.password]
            && r.0.acc.userBySession == s.acc.userBySession[address := u.login]
            && r.0.userRoot == s.userRoot[u.login := UserFile(root, u.login)])
      && (!r.1.success ==> r.0 == s)
      && r.0.acc.addressPenalty == s.acc.addressPenalty
      && r.0.acc.addressSignInAttempts == s.acc.addressSignInAttempts
  {
    if address !in s.acc.userBySession && u.login !in s.acc.users {
      if FolderCheck(u.login) && ready {
        SignUpFresh(root, s, address, u);
      } else {
        SignUpRolledBack(root, s, address, u, ready);
      }
    }
  }

  /** signUp keeps the invariant. */
  lemma SignUpValid(root: Path, s: Server, address: Address, u: UserData, ready: bool)
    requires Consistent(root, s)
    ensures Consistent(root, SignUpResult(root, s, address, u, ready).0)
  {
    if address !in s.acc.userBySession && u.login !in s.acc.users {
      if FolderCheck(u.login) && ready {
        SignUpFreshValid(root, s, address, u);
      } else {
        SignUpRolledBack(root, s, address, u, ready);
      }
    }
  }

  lemma SignUpFreshValid(root: Path, s: Server, address: Address, u: UserData)
    requires Consistent(root, s)
    requires address !in s.acc.userBySession && u.login !in s.acc.users && FolderCheck(u.login)
    ensures Consistent(root, SignUpResult(root, s, address, u, true).0)
  {
    var acc := s.acc.(users := s.acc.users[u.login := u.password]);
    assert u.login !in acc.sessionByUser;
    BindValid(acc, address, u.login);
    var b := Bind(acc, address, u.login).value;
    AddFolderConsistent(root, s, b, u.login);
    SignUpFresh(root, s, address, u);
    assert b == s.acc.(users := s.acc.users[u.login := u.password],
                       userBySession := s.acc.userBySession[address := u.login],
                       sessionByUser := s.acc.sessionByUser[u.login := address]);
  }

  /** Adding a plain login's folder, as its root and working directory, to accounts that register it keeps the invariant. */
  lemma AddFolderConsistent(root: Path, s: Server, acc: Accounts, login: Login)
    requires Consistent(root, s) && Auth.Valid(acc) && FolderCheck(login)
    requires acc.users.Keys == s.acc.users.Keys + {login}
    ensures var f := UserFile(root, login);
      Consistent(root, Server(acc, s.userRoot[login := f], s.userWorkingDirectory[login := f]))
  {
    var f := UserFile(root, login);
    var t := Server(acc, s.userRoot[login := f], s.userWorkingDirectory[login := f]);
    assert t.userRoot.Keys == s.userRoot.Keys + {login};
    assert t.userWorkingDirectory.Keys == s.userWorkingDirectory.Keys + {login};
    forall l | l in t.userRoot
      ensures FolderCheck(l) && t.userRoot[l] == UserFile(root, l)
      ensures l in t.userWorkingDirectory && t.userWorkingDirectory[l] == t.userRoot[l]
    {
      if l != login {
        assert l in s.userRoot;
      }
    }
  }

  /** signIn: Auth.SignIn, answered with "login /dir" when the session starts. */
  function SignInResult(root: Path, s: Server, address: Address, u: UserData, now: Time): (r: (Server, Reply))
    requires Consistent(root, s)
    ensures r.0 == s.(acc := SignIn(s.acc, address, u, now).0)
    ensures r.1.success <==> SignIn(s.acc, address, u, now).1.Ok?
    ensures !r.1.success ==> r.1.message == Some(SignIn(s.acc, address, u, now).1.error)
  {
    var (b, res) := SignIn(s.acc, address, u, now);
    match res
    case Err(m) => (s.(acc := b), Reply(false, Some(m)))
    case Ok(login) =>
      (s.(acc := b), Reply(true, Some(login + " " + WorkingDirectoryString(s.userRoot[login], s.userWorkingDirectory[login]))))
  }

  /** A successful sign-in is answered "login /". */
  lemma SignInReply(root: Path, s: Server, address: Address, u: UserData, now: Time)
    requires Consistent(root, s)
    ensures var r := SignInResult(root, s, address, u, now);
      r.1.success ==> r.1.message == Some(u.login + " /")
  {
    SignInSucceeds(s.acc, address, u, now);
    var res := SignIn(s.acc, address, u, now).1;
    if res.Ok? {
      assert res.value == u.login;
      var f := s.userRoot[u.login];
      assert s.userWorkingDirectory[u.login] == f;
      FreshSessionMessage(f);
      assert u.login + " " + "/" == u.login + " /";
    }
  }

  /** signIn keeps the invariant. */
  lemma SignInConsistent(root: Path, s: Server, address: Address, u: UserData, now: Time)
    requires Consistent(root, s)
    ensures Consistent(root, SignInResult(root, s, address, u, now).0)
  {
    SignInValid(s.acc, address, u, now);
  }

  /** signOut: endSession; an address without a session changes nothing. */
  function SignOutResult(s: Server, address: Address): (r: Server)
    ensures address !in s.acc.userBySession ==> r == s
    ensures address !in r.acc.userBySession
  {
    s.(acc := Unbind(s.acc, address))
  }

  lemma SignOutValid(root: Path, s: Server, address: Address)
    requires Consistent(root, s)
    ensures Consistent(root, SignOutResult(s, address))
  {
    UnbindValid(s.acc, address);
  }

  // ---------------------------------------------------------------------
  // resolveUserPath and uploadFile

  /**
   * resolveUserPath: the path is normalised, an absolute one made relative
   * to its root, resolved against the working directory and normalised
   * again; anything but a strict descendant of the normalised folder is
   * refused.
   */
  function ResolveUserPath(folder: Path, wd: Path, path: Path): (r: Result<Path, JString>)
    ensures r.Err? ==> r.error == INVALID_PATH
    ensures r.Ok? ==> StrictlyUnder(r.value, Normalize(folder))
  {
    var p := Normalize(path);
    var relative := if p.absolute then FromRoot(p) else p;
    var filePath := Normalize(Resolve(wd, relative));
    var userRootPath := Normalize(folder);
    if !StartsWith(filePath, userRootPath) || filePath == userRootPath then Err(INVALID_PATH)
    else Ok(filePath)
  }

  /**
   * What resolveUserPath returns from an absolute working directory is a
   * normal absolute path with no ".." in it, so it lies inside the folder
   * in the file tree as well as by its names.
   */
  lemma ResolvedIsInside(folder: Path, wd: Path, path: Path)
    requires wd.absolute
    ensures var r := ResolveUserPath(folder, wd, path);
      r.Ok? ==> r.value.absolute && IsNormal(r.value) && ".." !in r.value.names
  {
    var p := Normalize(path);
    var relative := if p.absolute then FromRoot(p) else p;
    NormalizeIsNormal(Resolve(wd, relative));
  }

  lemma PlainNamesNormal(names: seq<JString>)
    requires forall i :: 0 <= i < |names| ==> IsPlainName(names[i])
    ensures NormalNames(true, names) && NormalNames(false, names)
  {
  }

  /**
   * From the folder itself, every non-empty path of plain names is
   * accepted, absolute or relative, and names the file under the folder.
   */
  lemma ResolveAcceptsPlain(folder: Path, path: Path)
    requires folder.absolute && IsNormal(folder)
    requires path.names != [] && forall i :: 0 <= i < |path.names| ==> IsPlainName(path.names[i])
    ensures ResolveUserPath(folder, folder, path) == Ok(Path(true, folder.names + path.names))
  {
    PlainNamesNormal(path.names);
    NormalizeIdempotent(path);
    NormalizeIdempotent(folder);
    var target := Path(true, folder.names + path.names);
    assert NormalNames(true, target.names) by {
      forall i | 0 <= i < |target.names| ensures target.names[i] != "." && target.names[i] != ".." {
        if i < |folder.names| {
          assert target.names[i] == folder.names[i];
        } else {
          assert target.names[i] == path.names[i - |folder.names|];
        }
      }
    }
    NormalizeIdempotent(target);
    assert Resolve(folder, Path(false, path.names)) == target;
  }

  /** The files on the server's disk: contents by absolute names. */
  type Disk = map<seq<JString>, seq<byte>>

  /** A file, or a directory holding one, already has these names. */
  predicate Occupied(d: Disk, names: seq<JString>)
  {
    names in d || exists f :: f in d && names < f
  }

  /** A proper prefix of the names is a file, so the parent directories cannot be made. */
  predicate UnderFile(d: Disk, names: seq<JString>)
  {
    exists k :: 0 < k < |names| && names[..k] in d
  }

  /**
   * Files.copy without REPLACE_EXISTING: it fails on an existing target, when
   * the parent cannot be a directory, or on any other I/O error (`ioError`).
   */
  function Copy(d: Disk, target: seq<JString>, content: seq<byte>, ioError: bool): (r: Option<Disk>)
    ensures r.Some? ==> r.value == d[target := content] && target !in d
  {
    if ioError || Occupied(d, target) || UnderFile(d, target) then None else Some(d[target := content])
  }

  /**
   * uploadFile: no session and an invalid path are refused before the disk
   * is touched; a failed copy gives the write error; success carries no message.
   */
  function UploadFileResult(s: Server, address: Address, path: Path, content: seq<byte>, d: Disk, ioError: bool): (r: (Reply, Disk))
    requires address in s.acc.userBySession ==>
      s.acc.userBySession[address] in s.userRoot && s.acc.userBySession[address] in s.userWorkingDirectory
    ensures address !in s.acc.userBySession ==> r == (Reply(false, Some(UNKNOWN_SESSION)), d)
    ensures !r.0.success ==> r.1 == d && r.0.message.Some?
    ensures r.0.success ==> r.0.message.None? && exists t :: t !in d && r.1 == d[t := content]
  {
    if address !in s.acc.userBySession then (Reply(false, Some(UNKNOWN_SESSION)), d)
    else
      var login := s.acc.userBySession[address];
      match ResolveUserPath(s.userRoot[login], s.userWorkingDirectory[login], path)
      case Err(m) => (Reply(false, Some(m)), d)
      case Ok(filePath) =>
        match Copy(d, filePath.names, content, ioError)
        case None => (Reply(false, Some(WRITE_FAILED)), d)
        case Some(d2) => (Reply(true, None), d2)
  }

  /**
   * An upload writes at most one new file, strictly inside the uploader's
   * own folder, so never into another user's; every failure leaves the disk
   * as it was, and without a session the reply is the unknown-session one.
   */
  lemma UploadConfined(root: Path, s: Server, address: Address, path: Path, content: seq<byte>, d: Disk, ioError: bool)
    requires Consistent(root, s)
    ensures address in s.acc.userBySession ==> s.acc.userBySession[address] in s.userRoot
    ensures var r := UploadFileResult(s, address, path, content, d, ioError);
      && (address !in s.acc.userBySession ==> r == (Reply(false, Some(UNKNOWN_SESSION)), d))
      && (!r.0.success ==> r.1 == d)
      && (r.0.success ==>
            var login := s.acc.userBySession[address];
            exists target :: target !in d && r.1 == d[target := content]
              && StrictlyUnder(Path(true, target), s.userRoot[login])
              && forall other :: other in s.userRoot && other != login ==> !StartsWith(Path(true, target), s.userRoot[other]))
  {
    if address in s.acc.userBySession {
      var login := s.acc.userBySession[address];
      assert login in s.acc.sessionByUser;
      var r := UploadFileResult(s, address, path, content, d, ioError);
      if r.0.success {
        PlainFolder(root, login);
        var target := ResolveUserPath(s.userRoot[login], s.userWorkingDirectory[login], path).value;
        assert StrictlyUnder(target, s.userRoot[login]);
        assert Path(true, target.names) == target;
        forall other | other in s.userRoot && other != login
          ensures !StartsWith(Path(true, target.names), s.userRoot[other])
        {
          FoldersDisjoint(root, s, login, other, target);
        }
      }
    }
  }

  // ---------------------------------------------------------------------
  // The check as written

  /**
   * With the check as written the login "." passes: its folder normalises
   * to the server root itself, so its working directory is the root and
   * another user's file resolves as one of its own. The login "x/." passes
   * too and gets the folder of the login "x".
   */
  lemma FolderCheckAsWrittenLeaks(root: Path, other: Login, name: JString)
    requires IsRoot(root) && IsPlainName(other) && IsPlainName(name)
    ensures FolderCheckAsWritten(root, ".") && !FolderCheck(".")
    ensures Normalize(UserFile(root, ".")) == root
    ensures ResolveUserPath(UserFile(root, "."), root, Path(false, [other, name])) == Ok(Path(true, root.names + [other, name]))
    ensures StrictlyUnder(Path(true, root.names + [other, name]), UserFile(root, other))
    ensures FolderCheckAsWritten(root, other + "/.") && !FolderCheck(other + "/.")
    ensures Normalize(UserFile(root, other + "/.")) == UserFile(root, other)
  {
    NormalizeIdempotent(root);
    DotFolder(root);
    ResolveAcceptsPlain(root, Path(false, [other, name]));
    PlainFolder(root, other);
    SlashDotFolder(root, other);
  }

  lemma DotFolder(root: Path)
    requires IsRoot(root)
    ensures Normalize(UserFile(root, ".")) == root
  {
    PlainSplit(".");
    assert UserFile(root, ".").names == root.names + ["."];
    NormalizeAppend(true, root.names, ".");
  }

  lemma SlashDotFolder(root: Path, other: Login)
    requires IsRoot(root) && IsPlainName(other)
    ensures Normalize(UserFile(root, other + "/.")) == UserFile(root, other)
  {
    PlainSplit(other);
    PlainFolder(root, other);
    var s := other + "/.";
    NameAtOfName(other, "/.");
    assert s[|other|..] == "/.";
    PlainSplit(".");
    assert "/."[1..] == ".";
    assert SplitNames("/.") == ["."];
    assert SplitNames(s) == [other, "."];
    assert UserFile(root, s).names == (root.names + [other]) + ["."];
    NormalizeAppend(true, root.names + [other], ".");
  }

  /** Normalising a normal path with "." appended gives the path back. */
  lemma NormalizeAppend(absolute: bool, names: seq<JString>, dot: JString)
    requires NormalNames(absolute, names) && dot == "."
    ensures NormalizeFrom(absolute, [], names + [dot]) == names
  {
    NormalizeFromAppend(absolute, [], names, [dot]);
    NormalizeFromKeeps(absolute, [], names);
    assert [] + names == names;
  }

  /**
   * createUserFolder as written: new File(root, login).toPath() throws
   * InvalidPathException on a NUL in the login, and only a
   * SecurityException is caught around it; otherwise the check as written,
   * then the disk.
   */
  function CreateUserFolderAsWritten(s: Server, root: Path, login: Login, ready: bool)
    : (r: (Server, Result<Option<Path>, Exception>))
    ensures '\0' in login ==> r == (s, Err(InvalidPath))
    ensures '\0' !in login ==> r.1.Ok? && (r.1.value.Some? <==> FolderCheckAsWritten(root, login) && ready)
    ensures r.1.Ok? && r.1.value.Some? ==>
      && r.1.value.value == UserFile(root, login)
      && r.0 == s.(userWorkingDirectory := s.userWorkingDirectory[login := Normalize(UserFile(root, login))])
    ensures !(r.1.Ok? && r.1.value.Some?) ==> r.0 == s
  {
    if '\0' in login then (s, Err(InvalidPath))
    else if !FolderCheckAsWritten(root, login) || !ready then (s, Ok(None))
    else
      var file := UserFile(root, login);
      (s.(userWorkingDirectory := s.userWorkingDirectory[login := Normalize(file)]), Ok(Some(file)))
  }

  /** computeIfAbsent over the folder creation as written: an exception stores nothing and propagates. */
  function ComputeFolderAsWritten(s: Server, root: Path, login: Login, ready: bool)
    : (r: (Server, Result<Option<Path>, Exception>))
    ensures login in s.userRoot ==> r == (s, Ok(Some(s.userRoot[login])))
    ensures r.1.Err? ==> r.0 == s
    ensures r.1.Ok? && r.1.value.Some? ==> login in r.0.userRoot && r.0.userRoot[login] == r.1.value.value
  {
    if login in s.userRoot then (s, Ok(Some(s.userRoot[login])))
    else
      var (t, folder) := CreateUserFolderAsWritten(s, root, login, ready);
      match folder
      case Err(e) => (t, Err(e))
      case Ok(None) => (t, Ok(None))
      case Ok(Some(f)) => (t.(userRoot := t.userRoot[login := f]), Ok(Some(f)))
  }

  /**
   * signUp as written: the credential is stored before the folder is made,
   * and an exception from making it leaves the credential stored and
   * reaches the caller; a refused folder is rolled back as in SignUpResult.
   */
  function SignUpAsWritten(root: Path, s: Server, address: Address, u: UserData, ready: bool)
    : (r: (Server, Result<Reply, Exception>))
    requires Consistent(root, s)
    ensures r.1.Err? ==> r.0.acc.users == s.acc.users[u.login := u.password] && r.0.userRoot == s.userRoot
    ensures r.1.Ok? && !r.1.value.success ==> r.0 == s
  {
    if address in s.acc.userBySession then (s, Ok(Reply(false, Some(ADDRESS_IN_SESSION))))
    else if u.login in s.acc.users then (s, Ok(Reply(false, Some(LOGIN_TAKEN))))
    else
      var s1 := s.(acc := s.acc.(users := s.acc.users[u.login := u.password]));
      var (s2, folder) := ComputeFolderAsWritten(s1, root, u.login, ready);
      match folder
      case Err(e) => (s2, Err(e))
      case Ok(None) =>
        assert s2.acc.users - {u.login} == s.acc.users;
        (s2.(acc := s2.acc.(users := s2.acc.users - {u.login})), Ok(Reply(false, Some(FOLDER_FAILED))))
      case Ok(Some(f)) =>
        assert u.login !in s.acc.sessionByUser;
        var (s3, reply) := StartSessionResult(s2, address, u.login);
        (s3, Ok(reply))
  }

  /**
   * A new login holding a NUL: as written the credential stays registered
   * with no folder, breaking the invariant, and the exception closes the
   * connection; the corrected signUp refuses it and changes nothing.
   */
  lemma NulLoginKeptWithoutFolder(root: Path, s: Server, address: Address, u: UserData, ready: bool)
    requires Consistent(root, s)
    requires address !in s.acc.userBySession && u.login !in s.acc.users && '\0' in u.login
    ensures var r := SignUpAsWritten(root, s, address, u, ready);
      && r.1 == Err(InvalidPath)
      && u.login in r.0.acc.users && u.login !in r.0.userRoot
      && !Consistent(root, r.0)
    ensures SignUpResult(root, s, address, u, ready) == (s, Reply(false, Some(FOLDER_FAILED)))
  {
    assert u.login !in s.userRoot;
    SignUpRolledBack(root, s, address, u, ready);
  }

  /**
   * A login "a/b" next to a registered "a": as written it is accepted and
   * its folder lies strictly inside a's, so a reaches all of its files; the
   * corrected signUp refuses it.
   */
  lemma NestedLoginInsideAnother(root: Path, s: Server, address: Address, a: Login, b: JString, password: JString)
    requires Consistent(root, s) && a in s.userRoot && IsPlainName(b)
    requires address !in s.acc.userBySession && a + "/" + b !in s.acc.users
    ensures var u := UserData(a + "/" + b, password);
      var r := SignUpAsWritten(root, s, address, u, true);
      && r.1 == Ok(Reply(true, Some(u.login + " /")))
      && u.login in r.0.userRoot && StrictlyUnder(r.0.userRoot[u.login], s.userRoot[a])
    ensures !SignUpResult(root, s, address, UserData(a + "/" + b, password), true).1.success
  {
    var login := a + "/" + b;
    var u := UserData(login, password);
    assert FolderCheck(a);
    NestedFolder(root, a, b);
    var f := UserFile(root, login);
    assert '\0' !in login;
    assert login !in s.userRoot;
    assert login !in s.acc.sessionByUser;
    FreshSessionMessage(f);
    assert login + " " + "/" == login + " /";
    SignUpSucceeds(root, s, address, u, true);
    assert '/' in login by {
      assert login[|a|] == '/';
    }
  }

  /** The folder of "a/b" is the root, then a, then b, already normal and accepted by the check as written. */
  lemma NestedFolder(root: Path, a: Login, b: JString)
    requires IsRoot(root) && IsPlainName(a) && IsPlainName(b)
    ensures UserFile(root, a + "/" + b) == Path(true, root.names + [a, b])
    ensures Normalize(UserFile(root, a + "/" + b)) == UserFile(root, a + "/" + b)
    ensures FolderCheckAsWritten(root, a + "/" + b)
    ensures StrictlyUnder(UserFile(root, a + "/" + b), UserFile(root, a))
  {
    assert JoinNames([a, b]) == a + "/" + b;
    SplitJoined([a, b]);
    PlainFolder(root, a);
    var f := Path(true, root.names + [a, b]);
    assert NormalNames(true, f.names) by {
      forall i | 0 <= i < |f.names| ensures f.names[i] != "." && f.names[i] != ".." {
        if i < |root.names| {
          assert f.names[i] == root.names[i];
        }
      }
    }
    NormalizeIdempotent(f);
  }

  // ---------------------------------------------------------------------
  // The object

  /**
   * The FileManager object: the seven maps as fields and the root it was
   * made with; each method follows the function of the same name.
   */
  class FileManager {
    var users: map<Login, JString>
    var sessionByUser: map<Login, Address>
    var userBySession: map<Address, Login>
    var addressPenalty: map<Address, Time>
    var addressSignInAttempts: map<Address, int>
    const root: Path
    var userRoot: map<Login, Path>
    var userWorkingDirectory: map<Login, Path>

    function Model(): Server
      reads this
    {
      Server(Accounts(users, sessionByUser, userBySession, addressPenalty, addressSignInAttempts), userRoot, userWorkingDirectory)
    }

    ghost predicate Valid()
      reads this
    {
      Consistent(root, Model())
    }

    /** new FileManager(root): the root made absolute against `cwd` and normalised. */
    constructor(path: Path, cwd: Path)
      requires cwd.absolute
      ensures this.root == Normalize(Resolve(cwd, path)) && Valid()
      ensures Model() == Server(Empty, map[], map[])
    {
      root := Normalize(Resolve(cwd, path));
      users := map[];
      sessionByUser := map[];
      userBySession := map[];
      addressPenalty := map[];
      addressSignInAttempts := map[];
      userRoot := map[];
      userWorkingDirectory := map[];
      new;
      NormalizeIsNormal(Resolve(cwd, path));
    }

    method AddressIsBanned(address: Address, now: Time) returns (banned: bool)
      modifies this
      ensures (Model().acc, banned) == CheckBan(old(Model()).acc, address, now)
      ensures userRoot == old(userRoot) && userWorkingDirectory == old(userWorkingDirectory)
    {
      if address !in addressPenalty {
        return false;
      }
      if now - addressPenalty[address] > PENALTY {
        addressPenalty := addressPenalty - {address};
        return false;
      }
      return true;
    }

    method StartSession(address: Address, login: Login) returns (r: Reply)
      requires login in userRoot && login in userWorkingDirectory
      requires userRoot[login].absolute && userWorkingDirectory[login].absolute
      modifies this
      ensures (Model(), r) == StartSessionResult(old(Model()), address, login)
    {
      if login in sessionByUser {
        return Reply(false, Some(USER_HAS_SESSION));
      }
      if address in userBySession {
        return Reply(false, Some(ADDRESS_HAS_SESSION));
      }
      userBySession := userBySession[address := login];
      sessionByUser := sessionByUser[login := address];
      RelativizeDefined(userRoot[login], userWorkingDirectory[login]);
      var relative := Resolve(Path(true, []), Relativize(userRoot[login], userWorkingDirectory[login]).value);
      return Reply(true, Some(login + " " + PathString(relative)));
    }

    method EndSession(address: Address)
      modifies this
      ensures Model() == SignOutResult(old(Model()), address)
    {
      if address !in userBySession {
        return;
      }
      var login := userBySession[address];
      userBySession := userBySession - {address};
      sessionByUser := sessionByUser - {login};
    }

    /** createUserFolder; `ready` stands for the disk checks and mkdir. */
    method CreateUserFolder(login: Login, ready: bool) returns (folder: Option<Path>)
      modifies this
      ensures (Model(), folder) == CreateUserFolderResult(old(Model()), root, login, ready)
    {
      var file := Path(root.absolute, root.names + SplitNames(login));
      if !IsPlainName(login) || !ready {
        return None;
      }
      userWorkingDirectory := userWorkingDirectory[login := Normalize(file)];
      return Some(file);
    }

    /** userRoot.computeIfAbsent(login, this::createUserFolder) */
    method ComputeUserRoot(login: Login, ready: bool) returns (folder: Option<Path>)
      modifies this
      ensures (Model(), folder) == ComputeFolder(old(Model()), root, login, ready)
    {
      if login in userRoot {
        return Some(userRoot[login]);
      }
      folder := CreateUserFolder(login, ready);
      if folder.Some? {
        userRoot := userRoot[login := folder.value];
      }
    }

    method SignUp(address: Address, u: UserData, ready: bool) returns (r: Reply)
      requires Valid()
      modifies this
      ensures (Model(), r) == SignUpResult(root, old(Model()), address, u, ready)
      ensures Valid()
    {
      SignUpValid(root, Model(), address, u, ready);
      if address in userBySession {
        return Reply(false, Some(ADDRESS_IN_SESSION));
      }
      if u.login in users {
        return Reply(false, Some(LOGIN_TAKEN));
      }
      users := users[u.login := u.password];
      var folder := ComputeUserRoot(u.login, ready);
      if folder.None? {
        users := users - {u.login};
        return Reply(false, Some(FOLDER_FAILED));
      }
      PlainFolder(root, u.login);
      r := StartSession(address, u.login);
    }

    /** signIn's counting step: one more attempt, and a ban once over the limit. */
    method CountSignInAttempt(address: Address, now: Time) returns (over: bool)
      modifies this
      ensures (Model().acc, over) == CountAttempt(old(Model().acc), address, now)
      ensures userRoot == old(userRoot) && userWorkingDirectory == old(userWorkingDirectory)
    {
      var count := (if address in addressSignInAttempts then addressSignInAttempts[address] else 0) + 1;
      addressSignInAttempts := addressSignInAttempts[address := count];
      if addressSignInAttempts[address] > SIGN_IN_ATTEMPTS_LIMIT {
        ghost var before := addressSignInAttempts;
        addressSignInAttempts := addressSignInAttempts - {address};
        assert addressSignInAttempts == old(addressSignInAttempts) - {address} by {
          assert before == old(addressSignInAttempts)[address := count];
        }
        addressPenalty := addressPenalty[address := now];
        return true;
      }
      return false;
    }

    method SignIn(address: Address, u: UserData, now: Time) returns (r: Reply)
      requires Valid()
      modifies this
      ensures (Model(), r) == SignInResult(root, old(Model()), address, u, now)
      ensures Valid()
    {
      SignInConsistent(root, Model(), address, u, now);
      var banned := AddressIsBanned(address, now);
      if banned {
        return Reply(false, Some(STILL_BANNED));
      }
      var over := CountSignInAttempt(address, now);
      if over {
        return Reply(false, Some(NOW_BANNED));
      }
      if address in userBySession {
        return Reply(false, Some(ADDRESS_IN_SESSION));
      }
      if u.login !in users {
        return Reply(false, Some(NO_SUCH_USER));
      }
      if users[u.login] != u.password {
        return Reply(false, Some(WRONG_PASSWORD));
      }
      r := StartSession(address, u.login);
    }

    method SignOut(address: Address)
      requires Valid()
      modifies this
      ensures Model() == SignOutResult(old(Model()), address)
      ensures Valid()
    {
      SignOutValid(root, Model(), address);
      EndSession(address);
    }

    /** uploadFile; the disk before the call is `d`, the disk after it `d'`. */
    method UploadFile(address: Address, path: Path, content: seq<byte>, d: Disk, ioError: bool) returns (r: Reply, d': Disk)
      requires Valid()
      ensures (r, d') == UploadFileResult(Model(), address, path, content, d, ioError)
    {
      if address !in userBySession {
        return Reply(false, Some(UNKNOWN_SESSION)), d;
      }
      var login := userBySession[address];
      assert login in sessionByUser;
      var resolved := ResolveUserPath(userRoot[login], userWorkingDirectory[login], path);
      if resolved.Err? {
        return Reply(false, Some(resolved.error)), d;
      }
      var written := Copy(d, resolved.value.names, content, ioError);
      if written.None? {
        return Reply(false, Some(WRITE_FAILED)), d;
      }
      return Reply(true, None), written.value;
    }
  }
}
