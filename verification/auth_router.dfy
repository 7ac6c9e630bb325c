/** The authentication endpoints and the administration of users, one database write at a time. */
module AuthRouter {
  import opened Wrappers
  import opened AuthSpec

  class Router {
    /** How long a refresh token lives. */
    const life: int
    var users: map<string, User>
    var accounts: map<string, string>
    var sessions: map<string, Session>
    var resets: map<string, OneTime>
    var verifications: map<string, OneTime>

    function State(): Tables
      reads this
    {
      Tables(users, accounts, sessions, resets, verifications)
    }

    constructor (life: int)
      ensures this.life == life && State() == NONE
    {
      this.life := life;
      users, accounts, sessions, resets, verifications := map[], map[], map[], map[], map[];
    }

    method BuildTokenResponse(user: string, minted: string, now: int, writes: nat) returns (reply: Reply)
      modifies `sessions
      ensures (State(), reply) == Grant(life, old(State()), user, minted, now, writes)
    {
      if writes == 0 {
        return FAILED;
      }
      sessions := sessions[minted := Session(user, now + life, false)];
      return Issued(minted);
    }

    method Register(email: string, password: string, id: string, minted: string, now: int, writes: nat)
      returns (reply: Reply)
      modifies `users, `accounts, `verifications
      ensures (State(), reply) == Handle(life, old(State()), Request.Register(email, password, id, minted, now, writes))
    {
      if |password| < MIN_PASSWORD {
        return Denied(422);
      }
      if email in accounts {
        return Denied(409);
      }
      if writes == 0 {
        return FAILED;
      }
      users, accounts := users[id := User(email, password, true, false)], accounts[email := id];
      if writes == 1 {
        return FAILED;
      }
      verifications := verifications[minted := OneTime(id, now + DAY, false)];
      return Issued(minted);
    }

    method Login(email: string, password: string, minted: string, now: int, writes: nat) returns (reply: Reply)
      modifies `sessions
      ensures (State(), reply) == Handle(life, old(State()), Request.Login(email, password, minted, now, writes))
    {
      if email !in accounts || accounts[email] !in users {
        return Denied(401);
      }
      var user := users[accounts[email]];
      if user.password != password {
        return Denied(401);
      }
      if !user.active {
        return Denied(403);
      }
      if !user.verified {
        return Denied(403);
      }
      reply := BuildTokenResponse(accounts[email], minted, now, writes);
    }

    /** Whoever is signed in may revoke any refresh token presented. */
    method Logout(caller: Option<string>, token: string, writes: nat) returns (reply: Reply)
      modifies `sessions
      ensures (State(), reply) == Handle(life, old(State()), Request.Logout(caller, token, writes))
    {
      var check := CallerCheck(State(), caller);
      if check != 200 {
        return Denied(check);
      }
      if writes == 0 {
        return FAILED;
      }
      sessions := Revoke(sessions, token);
      return Accepted;
    }

    method RefreshToken(token: string, minted: string, now: int, writes: nat) returns (reply: Reply)
      modifies `sessions
      ensures (State(), reply) == Handle(life, old(State()), Refresh(token, minted, now, writes))
    {
      if token !in sessions {
        return Denied(401);
      }
      var stored := sessions[token];
      if stored.revoked {
        return Denied(401);
      }
      if stored.expires < now {
        return Denied(401);
      }
      if writes == 0 {
        return FAILED;
      }
      sessions := Revoke(sessions, token);
      if stored.user !in users || !users[stored.user].active {
        return Denied(401);
      }
      reply := BuildTokenResponse(stored.user, minted, now, writes - 1);
    }

    method ForgotPassword(email: string, minted: string, now: int, writes: nat) returns (reply: Reply)
      modifies `resets
      ensures (State(), reply) == Handle(life, old(State()), Request.ForgotPassword(email, minted, now, writes))
    {
      if email in accounts {
        if writes == 0 {
          return FAILED;
        }
        resets := resets[minted := OneTime(accounts[email], now + HOUR, false)];
        return Issued(minted);
      }
      return Accepted;
    }

    method ResetPassword(token: string, password: string, now: int, writes: nat) returns (reply: Reply)
      modifies `users, `resets, `sessions
      ensures (State(), reply) == Handle(life, old(State()), Request.ResetPassword(token, password, now, writes))
    {
      if |password| < MIN_PASSWORD {
        return Denied(422);
      }
      if token !in resets {
        return Denied(400);
      }
      var stored := resets[token];
      if stored.used {
        return Denied(400);
      }
      if stored.expires < now {
        return Denied(400);
      }
      if writes == 0 {
        return FAILED;
      }
      users := SetPassword(users, stored.user, password);
      if writes == 1 {
        return FAILED;
      }
      resets := Use(resets, token);
      if writes == 2 {
        return FAILED;
      }
      sessions := RevokeAll(sessions, stored.user);
      return Accepted;
    }

    method ChangePassword(caller: Option<string>, current: string, password: string, writes: nat) returns (reply: Reply)
      modifies `users, `sessions
      ensures (State(), reply) == Handle(life, old(State()), Request.ChangePassword(caller, current, password, writes))
    {
      var check := CallerCheck(State(), caller);
      if check != 200 {
        return Denied(check);
      }
      if |password| < MIN_PASSWORD {
        return Denied(422);
      }
      var user := caller.value;
      if users[user].password != current {
        return Denied(400);
      }
      if writes == 0 {
        return FAILED;
      }
      users := SetPassword(users, user, password);
      if writes == 1 {
        return FAILED;
      }
      sessions := RevokeAll(sessions, user);
      return Accepted;
    }

    method VerifyEmail(token: string, now: int, writes: nat) returns (reply: Reply)
      modifies `users, `verifications
      ensures (State(), reply) == Handle(life, old(State()), Request.VerifyEmail(token, now, writes))
    {
      if token !in verifications {
        return Denied(400);
      }
      var stored := verifications[token];
      if stored.used {
        return Denied(400);
      }
      if stored.expires < now {
        return Denied(400);
      }
      if writes == 0 {
        return FAILED;
      }
      users := SetVerified(users, stored.user);
      if writes == 1 {
        return FAILED;
      }
      verifications := Use(verifications, token);
      return Accepted;
    }

    method ResendVerification(email: string, minted: string, now: int, writes: nat) returns (reply: Reply)
      modifies `verifications
      ensures (State(), reply) == Handle(life, old(State()), Request.ResendVerification(email, minted, now, writes))
    {
      if email !in accounts || accounts[email] !in users {
        return Accepted;
      }
      if users[accounts[email]].verified {
        return Accepted;
      }
      if writes == 0 {
        return FAILED;
      }
      verifications := verifications[minted := OneTime(accounts[email], now + DAY, false)];
      return Issued(minted);
    }

    /** `POST /users`: an administrator chooses whether the new user counts as verified. */
    method CreateUser(
      caller: Option<string>, admin: bool, email: string, password: string, id: string, active: bool, verified: bool,
      writes: nat)
      returns (reply: Reply)
      modifies `users, `accounts
      ensures (State(), reply) ==
                Handle(life, old(State()),
                  Request.CreateUser(caller, admin, email, password, id, active, verified, writes))
    {
      var check := AdminCheck(State(), caller, admin);
      if check != 200 {
        return Denied(check);
      }
      if |password| < MIN_PASSWORD {
        return Denied(422);
      }
      if email in accounts {
        return Denied(409);
      }
      if writes == 0 {
        return FAILED;
      }
      users, accounts := users[id := User(email, password, active, verified)], accounts[email := id];
      return Accepted;
    }

    /** `PUT /users/{user_id}`, as far as it concerns tokens. */
    method SetActive(caller: Option<string>, admin: bool, user: string, active: bool, writes: nat)
      returns (reply: Reply)
      modifies `users
      ensures (State(), reply) == Handle(life, old(State()), Request.SetActive(caller, admin, user, active, writes))
    {
      var check := AdminCheck(State(), caller, admin);
      if check != 200 {
        return Denied(check);
      }
      if writes == 0 {
        return FAILED;
      }
      if user in users {
        users := users[user := users[user].(active := active)];
      }
      return Accepted;
    }

    /** `DELETE /users/{user_id}` */
    method DeleteUser(caller: Option<string>, admin: bool, user: string, writes: nat) returns (reply: Reply)
      modifies `users, `accounts
      ensures (State(), reply) == Handle(life, old(State()), Request.DeleteUser(caller, admin, user, writes))
    {
      var check := AdminCheck(State(), caller, admin);
      if check != 200 {
        return Denied(check);
      }
      if writes == 0 {
        return FAILED;
      }
      if user in users {
        users, accounts := users - {user}, accounts - {users[user].email};
      }
      return Accepted;
    }
  }
}
