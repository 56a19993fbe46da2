/**
 * The earlier FileManager revision (file-manager/.../FileManager.java):
 * accounts and sessions only, no folders. A started session is answered
 * with "The session began successfully.".
 */
module EarlyFileManager {
  import opened Wrappers
  import opened JStrings
  import opened UserDataCodec
  import opened Auth

  /** The Pair<Boolean, String> the public methods return. */
  datatype Reply = Reply(success: bool, message: JString)

  const SESSION_BEGAN: JString := "The session began successfully."

  /** startSession's reply. */
  function StartSessionResult(a: Accounts, address: Address, login: Login): (r: (Accounts, Reply))
    ensures r.1.success <==> Bind(a, address, login).Ok?
    ensures r.1.success ==> r.1.message == SESSION_BEGAN && r.0 == Bind(a, address, login).value
    ensures !r.1.success ==> r.1.message == Bind(a, address, login).error && r.0 == a
  {
    match Bind(a, address, login)
    case Ok(b) => (b, Reply(true, SESSION_BEGAN))
    case Err(m) => (a, Reply(false, m))
  }

  /**
   * signUp: refused when the address has a session, then when the login is
   * taken; otherwise the credential is stored and a session started.
   */
  function SignUpResult(a: Accounts, address: Address, u: UserData): (r: (Accounts, Reply))
    ensures address in a.userBySession ==> r == (a, Reply(false, ADDRESS_IN_SESSION))
    ensures address !in a.userBySession && u.login in a.users ==> r == (a, Reply(false, LOGIN_TAKEN))
    ensures r.1.success ==> r.0.users == a.users[u.login := u.password] && r.1.message == SESSION_BEGAN
  {
    if address in a.userBySession then (a, Reply(false, ADDRESS_IN_SESSION))
    else if u.login in a.users then (a, Reply(false, LOGIN_TAKEN))
    else StartSessionResult(a.(users := a.users[u.login := u.password]), address, u.login)
  }

  /** signIn, with this revision's reply text for a started session. */
  function SignInResult(a: Accounts, address: Address, u: UserData, now: Time): (r: (Accounts, Reply))
    ensures r.0 == SignIn(a, address, u, now).0
    ensures r.1.success <==> SignIn(a, address, u, now).1.Ok?
    ensures r.1.success ==> r.1.message == SESSION_BEGAN
    ensures !r.1.success ==> r.1.message == SignIn(a, address, u, now).1.error
  {
    var (b, res) := SignIn(a, address, u, now);
    match res
    case Ok(_) => (b, Reply(true, SESSION_BEGAN))
    case Err(m) => (b, Reply(false, m))
  }

  /**
   * signUp succeeds exactly when the address has no session and the login
   * is unregistered; it then stores the credential, binds the session both
   * ways and answers "The session began successfully.". Counters and bans
   * are neither read nor changed, and a refusal changes nothing.
   */
  lemma SignUpSucceeds(a: Accounts, address: Address, u: UserData)
    requires Valid(a)
    ensures var r := SignUpResult(a, address, u);
      && (r.1.success <==> address !in a.userBySession && u.login !in a.users)
      && (r.1.success ==>
            && r.1.message == SESSION_BEGAN
            && r.0.users == a.users[u.login := u.password]
            && r.0.userBySession == a.userBySession[address := u.login]
            && r.0.sessionByUser == a.sessionByUser[u.login := address])
      && (!r.1.success ==> r.0 == a)
      && r.0.addressPenalty == a.addressPenalty
      && r.0.addressSignInAttempts == a.addressSignInAttempts
  {
    if address !in a.userBySession && u.login !in a.users {
      assert u.login !in a.sessionByUser;
    }
  }

  /** signUp keeps the invariant. */
  lemma SignUpValid(a: Accounts, address: Address, u: UserData)
    requires Valid(a)
    ensures Valid(SignUpResult(a, address, u).0)
  {
    if address !in a.userBySession && u.login !in a.users {
      BindValid(a.(users := a.users[u.login := u.password]), address, u.login);
    }
  }

  /** No operation removes a credential: the table only grows. */
  lemma UsersOnlyGrow(a: Accounts, address: Address, u: UserData, now: Time)
    ensures a.users.Keys <= SignUpResult(a, address, u).0.users.Keys
    ensures forall l :: l in a.users ==> SignUpResult(a, address, u).0.users[l] == a.users[l]
    ensures SignInResult(a, address, u, now).0.users == a.users
    ensures Unbind(a, address).users == a.users
  {
  }

  /**
   * The FileManager object: the five maps as fields, each public and private
   * method following the function of the same name on the fields' values.
   */
  class FileManager {
    var users: map<Login, JString>
    var sessionByUser: map<Login, Address>
    var userBySession: map<Address, Login>
    var addressPenalty: map<Address, Time>
    var addressSignInAttempts: map<Address, int>

    /** The fields as one value. */
    function Model(): Accounts
      reads this
    {
      Accounts(users, sessionByUser, userBySession, addressPenalty, addressSignInAttempts)
    }

    ghost predicate Valid()
      reads this
    {
      Auth.Valid(Model())
    }

    constructor()
      ensures Model() == Empty && Valid()
    {
      users := map[];
      sessionByUser := map[];
      userBySession := map[];
      addressPenalty := map[];
      addressSignInAttempts := map[];
    }

    /** addressIsBanned; `now` stands for Instant.now(). */
    method AddressIsBanned(address: Address, now: Time) returns (banned: bool)
      modifies this
      ensures (Model(), banned) == CheckBan(old(Model()), address, now)
    {
      if address !in addressPenalty {
        return false;
      }
      if now - addressPenalty[address] > PENALTY {
        addressPenalty := addressPenalty - {address};
        return false;
      }
      return true;
    }

    method StartSession(address: Address, login: Login) returns (r: Reply)
      modifies this
      ensures (Model(), r) == StartSessionResult(old(Model()), address, login)
    {
      if login in sessionByUser {
        return Reply(false, USER_HAS_SESSION);
      }
      if address in userBySession {
        return Reply(false, ADDRESS_HAS_SESSION);
      }
      userBySession := userBySession[address := login];
      sessionByUser := sessionByUser[login := address];
      return Reply(true, SESSION_BEGAN);
    }

    method EndSession(address: Address)
      requires Valid()
      modifies this
      ensures Valid()
      ensures Model() == Unbind(old(Model()), address)
    {
      UnbindValid(Model(), address);
      if address !in userBySession {
        return;
      }
      var login := userBySession[address];
      userBySession := userBySession - {address};
      sessionByUser := sessionByUser - {login};
    }

    method SignUp(address: Address, u: UserData) returns (r: Reply)
      requires Valid()
      modifies this
      ensures Valid()
      ensures (Model(), r) == SignUpResult(old(Model()), address, u)
    {
      SignUpValid(Model(), address, u);
      if address in userBySession {
        return Reply(false, ADDRESS_IN_SESSION);
      }
      if u.login in users {
        return Reply(false, LOGIN_TAKEN);
      }
      users := users[u.login := u.password];
      r := StartSession(address, u.login);
    }

    method SignIn(address: Address, u: UserData, now: Time) returns (r: Reply)
      requires Valid()
      modifies this
      ensures Valid()
      ensures (Model(), r) == SignInResult(old(Model()), address, u, now)
    {
      var banned := AddressIsBanned(address, now);
      if banned {
        r := Reply(false, STILL_BANNED);
      } else {
        var count := (if address in addressSignInAttempts then addressSignInAttempts[address] else 0) + 1;
        addressSignInAttempts := addressSignInAttempts[address := count];
        if addressSignInAttempts[address] > SIGN_IN_ATTEMPTS_LIMIT {
          ghost var before := addressSignInAttempts;
          addressSignInAttempts := addressSignInAttempts - {address};
          assert addressSignInAttempts == old(addressSignInAttempts) - {address} by {
            assert before == old(addressSignInAttempts)[address := count];
          }
          addressPenalty := addressPenalty[address := now];
          r := Reply(false, NOW_BANNED);
        } else if address in userBySession {
          r := Reply(false, ADDRESS_IN_SESSION);
        } else if u.login !in users {
          r := Reply(false, NO_SUCH_USER);
        } else if users[u.login] != u.password {
          r := Reply(false, WRONG_PASSWORD);
        } else {
          r := StartSession(address, u.login);
        }
      }
      SignInValid(old(Model()), address, u, now);
    }

    method SignOut(address: Address)
      requires Valid()
      modifies this
      ensures Valid()
      ensures Model() == Unbind(old(Model()), address)
    {
      EndSession(address);
    }
  }
}
