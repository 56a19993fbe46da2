/**
 * The account bookkeeping both FileManager revisions share
 * (file-manager/.../FileManager.java and server/.../file/manager/FileManager.java):
 * the credential table, the two session maps that must stay inverse to each
 * other, and the per-address sign-in attempt counters and bans.
 *
 * The state is a value here and every operation a function from the old
 * state to the new one; each revision's FileManager class keeps the same
 * maps in fields and its methods are proved to follow these functions.
 */
module Auth {
  import opened Wrappers
  import opened JStrings
  import opened UserDataCodec

  /** A client's remote socket address; the model only compares them. */
  type Address(==)

  type Login = JString

  /** A point in time, in milliseconds. */
  type Time = int

  /** PENALTY: five minutes. */
  const PENALTY: int := 5 * 60 * 1000

  /** SIGN_IN_ATTEMPTS_LIMIT */
  const SIGN_IN_ATTEMPTS_LIMIT: int := 3

  const STILL_BANNED: JString := "Address is still banned. Please try again later."
  /** The ban message; PENALTY.toMinutes() prints as 5. */
  const NOW_BANNED: JString := "Address is banned due to excessive number of signing in attempts.\nPlease wait 5 minutes and try again."
  const ADDRESS_IN_SESSION: JString := "There is an active session with such address already."
  const LOGIN_TAKEN: JString := "User with such login is already registered."
  const NO_SUCH_USER: JString := "There is no user with such login."
  const WRONG_PASSWORD: JString := "Wrong password."
  const USER_HAS_SESSION: JString := "This user already has an active session."
  const ADDRESS_HAS_SESSION: JString := "This address already has an active session."

  /** The five maps of a FileManager; a penalty is the time the ban started. */
  datatype Accounts = Accounts(
    users: map<Login, JString>,
    sessionByUser: map<Login, Address>,
    userBySession: map<Address, Login>,
    addressPenalty: map<Address, Time>,
    addressSignInAttempts: map<Address, int>)

  /** A fresh FileManager: every map empty. */
  const Empty: Accounts := Accounts(map[], map[], map[], map[], map[])

  /** The two session maps are inverse to each other. */
  predicate SessionsInverse(a: Accounts)
  {
    && (forall l :: l in a.sessionByUser ==>
          a.sessionByUser[l] in a.userBySession && a.userBySession[a.sessionByUser[l]] == l)
    && (forall ad :: ad in a.userBySession ==>
          a.userBySession[ad] in a.sessionByUser && a.sessionByUser[a.userBySession[ad]] == ad)
  }

  /**
   * What every operation keeps: inverse session maps, sessions only for
   * registered users, and stored attempt counters between 1 and the limit.
   */
  predicate Valid(a: Accounts)
  {
    && SessionsInverse(a)
    && a.sessionByUser.Keys <= a.users.Keys
    && (forall ad :: ad in a.addressSignInAttempts ==> 1 <= a.addressSignInAttempts[ad] <= SIGN_IN_ATTEMPTS_LIMIT)
  }

  lemma EmptyValid()
    ensures Valid(Empty) && Empty.users == map[] && Empty.userBySession == map[]
  {
  }

  // ---------------------------------------------------------------------
  // Sessions

  /**
   * startSession, the bookkeeping part: refused when the login already has
   * a session, then when the address has one; otherwise both directions are
   * bound.
   */
  function Bind(a: Accounts, address: Address, login: Login): (r: Result<Accounts, JString>)
    ensures r.Ok? <==> login !in a.sessionByUser && address !in a.userBySession
    ensures login in a.sessionByUser ==> r == Err(USER_HAS_SESSION)
    ensures login !in a.sessionByUser && address in a.userBySession ==> r == Err(ADDRESS_HAS_SESSION)
    ensures r.Ok? ==>
      && r.value.userBySession == a.userBySession[address := login]
      && r.value.sessionByUser == a.sessionByUser[login := address]
      && r.value.users == a.users
      && r.value.addressPenalty == a.addressPenalty
      && r.value.addressSignInAttempts == a.addressSignInAttempts
  {
    if login in a.sessionByUser then Err(USER_HAS_SESSION)
    else if address in a.userBySession then Err(ADDRESS_HAS_SESSION)
    else Ok(a.(userBySession := a.userBySession[address := login], sessionByUser := a.sessionByUser[login := address]))
  }

  /** startSession keeps the invariant for a registered login. */
  lemma BindValid(a: Accounts, address: Address, login: Login)
    requires Valid(a) && login in a.users
    ensures Bind(a, address, login).Ok? ==> Valid(Bind(a, address, login).value)
  {
  }

  /** endSession: an unbound address changes nothing; a bound one loses both directions. */
  function Unbind(a: Accounts, address: Address): (r: Accounts)
    ensures address !in a.userBySession ==> r == a
    ensures address in a.userBySession ==>
      && r.userBySession == a.userBySession - {address}
      && r.sessionByUser == a.sessionByUser - {a.userBySession[address]}
    ensures r.users == a.users && r.addressPenalty == a.addressPenalty && r.addressSignInAttempts == a.addressSignInAttempts
  {
    if address !in a.userBySession then a
    else
      var login := a.userBySession[address];
      a.(userBySession := a.userBySession - {address}, sessionByUser := a.sessionByUser - {login})
  }

  /**
   * endSession keeps the invariant; afterwards the address has no session
   * and every other address keeps its own.
   */
  lemma UnbindValid(a: Accounts, address: Address)
    requires Valid(a)
    ensures Valid(Unbind(a, address))
    ensures address !in Unbind(a, address).userBySession
    ensures forall other :: other != address && other in a.userBySession ==>
      other in Unbind(a, address).userBySession && Unbind(a, address).userBySession[other] == a.userBySession[other]
  {
  }

  /** Signing out twice is signing out once. */
  lemma UnbindIdempotent(a: Accounts, address: Address)
    ensures Unbind(Unbind(a, address), address) == Unbind(a, address)
  {
  }

  // ---------------------------------------------------------------------
  // Bans and attempt counters

  /** The address has a penalty that started at most PENALTY ago. */
  predicate StillBanned(a: Accounts, address: Address, now: Time)
  {
    address in a.addressPenalty && now - a.addressPenalty[address] <= PENALTY
  }

  /**
   * addressIsBanned: a penalty older than PENALTY is dropped on the way,
   * and only then is the address free again.
   */
  function CheckBan(a: Accounts, address: Address, now: Time): (r: (Accounts, bool))
    ensures r.1 <==> StillBanned(a, address, now)
    ensures r.0 == a.(addressPenalty := if r.1 then a.addressPenalty else a.addressPenalty - {address})
  {
    if address !in a.addressPenalty then (a, false)
    else if now - a.addressPenalty[address] > PENALTY then (a.(addressPenalty := a.addressPenalty - {address}), false)
    else (a, true)
  }

  /** The attempts an address has used: the stored counter, or 0. */
  function Attempts(a: Accounts, address: Address): int
  {
    if address in a.addressSignInAttempts then a.addressSignInAttempts[address] else 0
  }

  /**
   * The counting step of signIn: one more attempt; going over the limit
   * removes the counter and starts a ban at now.
   */
  function CountAttempt(a: Accounts, address: Address, now: Time): (r: (Accounts, bool))
    ensures r.1 <==> Attempts(a, address) + 1 > SIGN_IN_ATTEMPTS_LIMIT
    ensures r.0.users == a.users && r.0.sessionByUser == a.sessionByUser && r.0.userBySession == a.userBySession
    ensures r.1 ==> address !in r.0.addressSignInAttempts && r.0.addressPenalty == a.addressPenalty[address := now]
    ensures !r.1 ==> Attempts(r.0, address) == Attempts(a, address) + 1 && r.0.addressPenalty == a.addressPenalty
  {
    var count := Attempts(a, address) + 1;
    if count > SIGN_IN_ATTEMPTS_LIMIT then
      (a.(addressSignInAttempts := a.addressSignInAttempts - {address},
          addressPenalty := a.addressPenalty[address := now]), true)
    else
      (a.(addressSignInAttempts := a.addressSignInAttempts[address := count]), false)
  }

  // ---------------------------------------------------------------------
  // signIn

  /**
   * signIn, up to the reply text for a started session: the ban check, the
   * count, then in this order the address's own session, an unknown login,
   * a wrong password and startSession's refusals. Ok carries the login
   * whose session began.
   */
  function SignIn(a: Accounts, address: Address, u: UserData, now: Time): (r: (Accounts, Result<Login, JString>))
    ensures r.0.users == a.users
  {
    var (b, banned) := CheckBan(a, address, now);
    if banned then (b, Err(STILL_BANNED))
    else
      var (c, over) := CountAttempt(b, address, now);
      if over then (c, Err(NOW_BANNED))
      else if address in c.userBySession then (c, Err(ADDRESS_IN_SESSION))
      else if u.login !in c.users then (c, Err(NO_SUCH_USER))
      else if c.users[u.login] != u.password then (c, Err(WRONG_PASSWORD))
      else
        match Bind(c, address, u.login)
        case Err(m) => (c, Err(m))
        case Ok(d) => (d, Ok(u.login))
  }

  /** A sign-in from a banned address is refused without counting it: nothing changes. */
  lemma SignInWhileBanned(a: Accounts, address: Address, u: UserData, now: Time)
    requires StillBanned(a, address, now)
    ensures SignIn(a, address, u, now) == (a, Err(STILL_BANNED))
  {
  }

  /**
   * Every sign-in that is not refused as banned is counted; the one that
   * goes over the limit removes the counter, bans the address from now and
   * is refused, whatever the credentials.
   */
  lemma SignInCounts(a: Accounts, address: Address, u: UserData, now: Time)
    requires !StillBanned(a, address, now)
    ensures var r := SignIn(a, address, u, now);
      && (Attempts(a, address) < SIGN_IN_ATTEMPTS_LIMIT ==> Attempts(r.0, address) == Attempts(a, address) + 1)
      && (Attempts(a, address) >= SIGN_IN_ATTEMPTS_LIMIT ==>
            && r.1 == Err(NOW_BANNED)
            && address !in r.0.addressSignInAttempts
            && r.0.addressPenalty == a.addressPenalty[address := now])
  {
  }

  /** The credential checks after counting, in the source's order. */
  lemma SignInRefusals(a: Accounts, address: Address, u: UserData, now: Time)
    requires !StillBanned(a, address, now) && Attempts(a, address) < SIGN_IN_ATTEMPTS_LIMIT
    ensures var r := SignIn(a, address, u, now).1;
      && (address in a.userBySession ==> r == Err(ADDRESS_IN_SESSION))
      && (address !in a.userBySession && u.login !in a.users ==> r == Err(NO_SUCH_USER))
      && (address !in a.userBySession && u.login in a.users && a.users[u.login] != u.password ==> r == Err(WRONG_PASSWORD))
  {
  }

  /**
   * A sign-in succeeds exactly when the address is not banned, has attempts
   * left, has no session, the login exists with this password and has no
   * session elsewhere; the session is then bound both ways and the attempt
   * counter is not reset.
   */
  lemma SignInSucceeds(a: Accounts, address: Address, u: UserData, now: Time)
    ensures var r := SignIn(a, address, u, now);
      r.1.Ok? <==>
        && !StillBanned(a, address, now)
        && Attempts(a, address) < SIGN_IN_ATTEMPTS_LIMIT
        && address !in a.userBySession
        && u.login in a.users && a.users[u.login] == u.password
        && u.login !in a.sessionByUser
    ensures var r := SignIn(a, address, u, now);
      r.1.Ok? ==>
        && r.1.value == u.login
        && address in r.0.userBySession && r.0.userBySession[address] == u.login
        && u.login in r.0.sessionByUser && r.0.sessionByUser[u.login] == address
        && Attempts(r.0, address) == Attempts(a, address) + 1
  {
  }

  /** signIn keeps the invariant. */
  lemma SignInValid(a: Accounts, address: Address, u: UserData, now: Time)
    requires Valid(a)
    ensures Valid(SignIn(a, address, u, now).0)
  {
    var (b, banned) := CheckBan(a, address, now);
    if !banned {
      var (c, over) := CountAttempt(b, address, now);
      assert Valid(c);
      if !over && address !in c.userBySession && u.login in c.users {
        BindValid(c, address, u.login);
      }
    }
  }

  /**
   * The ban's life: the attempt after three counted ones bans the address at
   * t; a sign-in at any time up to and including t + PENALTY is refused
   * without counting, and the first one after that is counted afresh as
   * attempt number one.
   */
  lemma BanLifecycle(a: Accounts, address: Address, u: UserData, t: Time, later: Time)
    requires !StillBanned(a, address, t) && Attempts(a, address) == SIGN_IN_ATTEMPTS_LIMIT
    ensures var banned := SignIn(a, address, u, t).0;
      && SignIn(a, address, u, t).1 == Err(NOW_BANNED)
      && (later <= t + PENALTY ==> SignIn(banned, address, u, later) == (banned, Err(STILL_BANNED)))
      && (later > t + PENALTY ==>
            && SignIn(banned, address, u, later).1 != Err(STILL_BANNED)
            && Attempts(SignIn(banned, address, u, later).0, address) == 1
            && address !in SignIn(banned, address, u, later).0.addressPenalty)
  {
    var banned := SignIn(a, address, u, t).0;
    assert Attempts(banned, address) == 0;
    assert banned.addressPenalty[address] == t;
  }

  /** Exactly five minutes after the ban started the address is still banned. */
  lemma FiveMinutesIsStillBanned(a: Accounts, address: Address, t: Time)
    requires address in a.addressPenalty && a.addressPenalty[address] == t
    ensures StillBanned(a, address, t + 300000)
    ensures !StillBanned(a, address, t + 300001)
  {
  }
}
