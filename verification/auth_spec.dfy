/**
 Accounts and their tokens: the tables behind the authentication and user administration endpoints,
 and what each request does to them. Digests are modelled by the values they are made from.
 */
module AuthSpec {
  import opened Wrappers

  datatype User = User(email: string, password: string, active: bool, verified: bool)

  /** A refresh token's row; `user` is the identifier of its owner. */
  datatype Session = Session(user: string, expires: int, revoked: bool)

  /** A reset or verification token's row. */
  datatype OneTime = OneTime(user: string, expires: int, used: bool)

  /** `accounts` is the lookup by email, which the endpoints keep unique. */
  datatype Tables = Tables(
    users: map<string, User>, accounts: map<string, string>,
    sessions: map<string, Session>, resets: map<string, OneTime>, verifications: map<string, OneTime>)

  /**
   `id` is the identifier a new user would get and `minted` the token the request would issue;
   `caller` is the subject of a valid access token and `admin` whether that token carries the role.
   `writes` is how many of the request's database writes go through before one raises.
   */
  datatype Request =
    | Register(email: string, password: string, id: string, minted: string, now: int, writes: nat)
    | Login(email: string, password: string, minted: string, now: int, writes: nat)
    | Logout(caller: Option<string>, token: string, writes: nat)
    | Refresh(token: string, minted: string, now: int, writes: nat)
    | ForgotPassword(email: string, minted: string, now: int, writes: nat)
    | ResetPassword(token: string, password: string, now: int, writes: nat)
    | ChangePassword(caller: Option<string>, current: string, password: string, writes: nat)
    | VerifyEmail(token: string, now: int, writes: nat)
    | ResendVerification(email: string, minted: string, now: int, writes: nat)
    | CreateUser(caller: Option<string>, admin: bool, email: string, password: string, id: string, active: bool,
                 verified: bool, writes: nat)
    | SetActive(caller: Option<string>, admin: bool, user: string, active: bool, writes: nat)
    | DeleteUser(caller: Option<string>, admin: bool, user: string, writes: nat)

  datatype Reply = Denied(code: int) | Accepted | Issued(token: string)

  const HOUR := 3600
  const DAY := 86400
  const MIN_PASSWORD := 8

  /** What a request answers when a database call raises. */
  const FAILED := Denied(500)

  // ---- Updates of rows ----

  function AddUser(s: Tables, id: string, user: User): Tables {
    s.(users := s.users[id := user], accounts := s.accounts[user.email := id])
  }

  /** Tokens of the user, if any, are left where they are. */
  function RemoveUser(s: Tables, id: string): Tables {
    if id in s.users then s.(users := s.users - {id}, accounts := s.accounts - {s.users[id].email}) else s
  }

  function Revoke(sessions: map<string, Session>, token: string): map<string, Session> {
    if token in sessions then sessions[token := sessions[token].(revoked := true)] else sessions
  }

  function RevokeAll(sessions: map<string, Session>, user: string): map<string, Session> {
    map t | t in sessions :: if sessions[t].user == user then sessions[t].(revoked := true) else sessions[t]
  }

  function Use(table: map<string, OneTime>, token: string): map<string, OneTime> {
    if token in table then table[token := table[token].(used := true)] else table
  }

  function SetPassword(users: map<string, User>, user: string, password: string): map<string, User> {
    if user in users then users[user := users[user].(password := password)] else users
  }

  function SetVerified(users: map<string, User>, user: string): map<string, User> {
    if user in users then users[user := users[user].(verified := true)] else users
  }

  // ---- Checks ----

  predicate IsActive(s: Tables, user: string) { user in s.users && s.users[user].active }

  /** The dependency of the endpoints that need a signed-in, active user: 200, 401 or 403. */
  function CallerCheck(s: Tables, caller: Option<string>): int {
    match caller
    case None => 401
    case Some(user) => if user !in s.users then 401 else if !s.users[user].active then 403 else 200
  }

  function AdminCheck(s: Tables, caller: Option<string>, admin: bool): int {
    var check := CallerCheck(s, caller);
    if check == 200 && !admin then 403 else check
  }

  /** The user who may log in so, or the code to refuse with. */
  function LoginCheck(s: Tables, email: string, password: string): int {
    if email !in s.accounts || s.accounts[email] !in s.users then 401
    else
      var user := s.users[s.accounts[email]];
      if user.password != password then 401 else if !user.active || !user.verified then 403 else 200
  }

  predicate Exchangeable(s: Tables, token: string, now: int) {
    token in s.sessions && !s.sessions[token].revoked && !(s.sessions[token].expires < now)
  }

  predicate Redeemable(table: map<string, OneTime>, token: string, now: int) {
    token in table && !table[token].used && !(table[token].expires < now)
  }

  // ---- The requests ----

  /** `_build_token_response`: its one write is the insertion. */
  function Grant(life: int, s: Tables, user: string, minted: string, now: int, writes: nat): (Tables, Reply) {
    if writes == 0 then (s, FAILED)
    else (s.(sessions := s.sessions[minted := Session(user, now + life, false)]), Issued(minted))
  }

  function HandleRegister(
    s: Tables, email: string, password: string, id: string, minted: string, now: int, writes: nat): (Tables, Reply)
  {
    if |password| < MIN_PASSWORD then (s, Denied(422))
    else if email in s.accounts then (s, Denied(409))
    else if writes == 0 then (s, FAILED)
    else
      var added := AddUser(s, id, User(email, password, true, false));
      if writes == 1 then (added, FAILED)
      else (added.(verifications := s.verifications[minted := OneTime(id, now + DAY, false)]), Issued(minted))
  }

  /** The presented token is revoked before the user is looked at. */
  function HandleRefresh(life: int, s: Tables, token: string, minted: string, now: int, writes: nat): (Tables, Reply) {
    if !Exchangeable(s, token, now) then (s, Denied(401))
    else if writes == 0 then (s, FAILED)
    else
      var user := s.sessions[token].user;
      var rotated := s.(sessions := Revoke(s.sessions, token));
      if !IsActive(rotated, user) then (rotated, Denied(401)) else Grant(life, rotated, user, minted, now, writes - 1)
  }

  /** The password, the token and the sessions are written in this order. */
  function HandleReset(s: Tables, token: string, password: string, now: int, writes: nat): (Tables, Reply) {
    if |password| < MIN_PASSWORD then (s, Denied(422))
    else if !Redeemable(s.resets, token, now) then (s, Denied(400))
    else if writes == 0 then (s, FAILED)
    else
      var user := s.resets[token].user;
      var changed := s.(users := SetPassword(s.users, user, password));
      if writes == 1 then (changed, FAILED)
      else
        var used := changed.(resets := Use(s.resets, token));
        if writes == 2 then (used, FAILED) else (used.(sessions := RevokeAll(s.sessions, user)), Accepted)
  }

  function HandleChange(
    s: Tables, caller: Option<string>, current: string, password: string, writes: nat): (Tables, Reply)
  {
    var check := CallerCheck(s, caller);
    if check != 200 then (s, Denied(check))
    else if |password| < MIN_PASSWORD then (s, Denied(422))
    else if s.users[caller.value].password != current then (s, Denied(400))
    else if writes == 0 then (s, FAILED)
    else
      var changed := s.(users := SetPassword(s.users, caller.value, password));
      if writes == 1 then (changed, FAILED) else (changed.(sessions := RevokeAll(s.sessions, caller.value)), Accepted)
  }

  function HandleVerify(s: Tables, token: string, now: int, writes: nat): (Tables, Reply) {
    if !Redeemable(s.verifications, token, now) then (s, Denied(400))
    else if writes == 0 then (s, FAILED)
    else
      var verified := s.(users := SetVerified(s.users, s.verifications[token].user));
      if writes == 1 then (verified, FAILED) else (verified.(verifications := Use(s.verifications, token)), Accepted)
  }

  function HandleCreate(
    s: Tables, caller: Option<string>, admin: bool, email: string, password: string, id: string, active: bool,
    verified: bool, writes: nat): (Tables, Reply)
  {
    var check := AdminCheck(s, caller, admin);
    if check != 200 then (s, Denied(check))
    else if |password| < MIN_PASSWORD then (s, Denied(422))
    else if email in s.accounts then (s, Denied(409))
    else if writes == 0 then (s, FAILED)
    else (AddUser(s, id, User(email, password, active, verified)), Accepted)
  }

  /** One request; `life` is how long a refresh token lives. */
  function Handle(life: int, s: Tables, e: Request): (Tables, Reply) {
    match e
    case Register(email, password, id, minted, now, writes) =>
      HandleRegister(s, email, password, id, minted, now, writes)
    case Login(email, password, minted, now, writes) =>
      var check := LoginCheck(s, email, password);
      if check != 200 then (s, Denied(check)) else Grant(life, s, s.accounts[email], minted, now, writes)
    case Logout(caller, token, writes) =>
      var check := CallerCheck(s, caller);
      if check != 200 then (s, Denied(check))
      else if writes == 0 then (s, FAILED)
      else (s.(sessions := Revoke(s.sessions, token)), Accepted)
    case Refresh(token, minted, now, writes) => HandleRefresh(life, s, token, minted, now, writes)
    case ForgotPassword(email, minted, now, writes) =>
      if email !in s.accounts then (s, Accepted)
      else if writes == 0 then (s, FAILED)
      else (s.(resets := s.resets[minted := OneTime(s.accounts[email], now + HOUR, false)]), Issued(minted))
    case ResetPassword(token, password, now, writes) => HandleReset(s, token, password, now, writes)
    case ChangePassword(caller, current, password, writes) => HandleChange(s, caller, current, password, writes)
    case VerifyEmail(token, now, writes) => HandleVerify(s, token, now, writes)
    case ResendVerification(email, minted, now, writes) =>
      if email !in s.accounts || s.accounts[email] !in s.users || s.users[s.accounts[email]].verified then (s, Accepted)
      else if writes == 0 then (s, FAILED)
      else
        (s.(verifications := s.verifications[minted := OneTime(s.accounts[email], now + DAY, false)]), Issued(minted))
    case CreateUser(caller, admin, email, password, id, active, verified, writes) =>
      HandleCreate(s, caller, admin, email, password, id, active, verified, writes)
    case SetActive(caller, admin, user, active, writes) =>
      var check := AdminCheck(s, caller, admin);
      if check != 200 then (s, Denied(check))
      else if writes == 0 then (s, FAILED)
      else (if user in s.users then s.(users := s.users[user := s.users[user].(active := active)]) else s, Accepted)
    case DeleteUser(caller, admin, user, writes) =>
      var check := AdminCheck(s, caller, admin);
      if check != 200 then (s, Denied(check))
      else if writes == 0 then (s, FAILED)
      else (RemoveUser(s, user), Accepted)
  }

  // ---- Runs ----

  const NONE := Tables(map[], map[], map[], map[], map[])

  function After(life: int, es: seq<Request>): Tables {
    if es == [] then NONE else Handle(life, After(life, es[..|es| - 1]), es[|es| - 1]).0
  }

  /** The tables the `i`-th request of a run finds. */
  function Before(life: int, es: seq<Request>, i: int): Tables
    requires 0 <= i <= |es|
  {
    After(life, es[..i])
  }

  function ReplyAt(life: int, es: seq<Request>, i: int): Reply
    requires 0 <= i < |es|
  {
    Handle(life, Before(life, es, i), es[i]).1
  }

  /** What a request mints is in none of its tables yet. */
  ghost predicate Fresh(s: Tables, e: Request) {
    && (e.Login? || e.Refresh? ==> e.minted !in s.sessions)
    && (e.ForgotPassword? ==> e.minted !in s.resets)
    && (e.Register? || e.ResendVerification? ==> e.minted !in s.verifications)
    && (e.Register? || e.CreateUser? ==> e.id !in s.users)
  }

  ghost predicate FreshRun(life: int, es: seq<Request>) {
    forall i :: 0 <= i < |es| ==> Fresh(Before(life, es, i), es[i])
  }

  lemma FreshRunPrefix(life: int, es: seq<Request>, n: int)
    requires FreshRun(life, es) && 0 <= n <= |es|
    ensures FreshRun(life, es[..n])
  {
    forall i | 0 <= i < n ensures Fresh(Before(life, es[..n], i), es[..n][i]) {
      assert es[..n][..i] == es[..i];
    }
  }
}
