/** Users and who may log in, in terms of what was asked before. */
module AuthAccounts {
  import opened Wrappers
  import opened AuthSpec
  import opened AuthProperties

  /** What can be the case for a user. */
  datatype Fact = Address(email: string) | Password(password: string) | Active | Verified

  predicate Holds(s: Tables, user: string, fact: Fact) {
    && user in s.users
    && match fact
       case Address(email) => s.users[user].email == email
       case Password(password) => s.users[user].password == password
       case Active => s.users[user].active
       case Verified => s.users[user].verified
  }

  /** The caller is an active user. */
  predicate Acts(s: Tables, caller: Option<string>) { caller.Some? && Holds(s, caller.value, Active) }

  predicate IsFree(s: Tables, email: string) { forall user :: user in s.users ==> s.users[user].email != email }

  /** The token is in the table, was never used and has not expired. */
  predicate IsGood(table: map<string, OneTime>, token: string, now: int) {
    token in table && !table[token].used && now <= table[token].expires
  }

  // ---- What a request does to a user ----

  predicate Creates(s: Tables, e: Request, user: string) {
    && (e.Register? || (e.CreateUser? && Acts(s, e.caller) && e.admin))
    && e.id == user && |e.password| >= 8 && IsFree(s, e.email) && e.writes >= 1
  }

  predicate Removes(s: Tables, e: Request, user: string) {
    e.DeleteUser? && Acts(s, e.caller) && e.admin && e.user == user && e.writes >= 1
  }

  /** A reset with a good token of theirs, or a change by themselves, that gets to write the password. */
  predicate SetsPassword(s: Tables, e: Request, user: string) {
    || (e.ResetPassword? && IsGood(s.resets, e.token, e.now) && s.resets[e.token].user == user && user in s.users
        && |e.password| >= 8 && e.writes >= 1)
    || (e.ChangePassword? && e.caller == Some(user) && Holds(s, user, Active) && Holds(s, user, Password(e.current))
        && |e.password| >= 8 && e.writes >= 1)
  }

  predicate Switches(s: Tables, e: Request, user: string) {
    e.SetActive? && Acts(s, e.caller) && e.admin && e.user == user && user in s.users && e.writes >= 1
  }

  predicate Verifies(s: Tables, e: Request, user: string) {
    && e.VerifyEmail? && IsGood(s.verifications, e.token, e.now) && s.verifications[e.token].user == user
    && user in s.users && e.writes >= 1
  }

  predicate Gains(s: Tables, e: Request, user: string, fact: Fact) {
    match fact
    case Address(email) => Creates(s, e, user) && e.email == email
    case Password(password) => (Creates(s, e, user) || SetsPassword(s, e, user)) && e.password == password
    case Active =>
      (Creates(s, e, user) && (e.CreateUser? ==> e.active)) || (Switches(s, e, user) && e.active)
    case Verified => (Creates(s, e, user) && e.CreateUser? && e.verified) || Verifies(s, e, user)
  }

  predicate Loses(s: Tables, e: Request, user: string, fact: Fact) {
    || Removes(s, e, user)
    || match fact
       case Password(password) => SetsPassword(s, e, user) && e.password != password
       case Active => Switches(s, e, user) && !e.active
       case _ => false
  }

  // ---- One request ----

  lemma AddressTaken(s: Tables, email: string)
    requires AccountsMatch(s.users, s.accounts)
    ensures email in s.accounts <==> !IsFree(s, email)
    ensures forall user :: user in s.users && s.users[user].email == email <==>
              email in s.accounts && s.accounts[email] == user
  {
  }

  lemma RegisterFacts(life: int, s: Tables, e: Request, user: string, fact: Fact)
    requires e.Register? && Fresh(s, e) && AccountsMatch(s.users, s.accounts)
    ensures Holds(Handle(life, s, e).0, user, fact) <==> Gains(s, e, user, fact) || Holds(s, user, fact)
  {
    AddressTaken(s, e.email);
  }

  lemma CreateFacts(life: int, s: Tables, e: Request, user: string, fact: Fact)
    requires e.CreateUser? && Fresh(s, e) && AccountsMatch(s.users, s.accounts)
    ensures Holds(Handle(life, s, e).0, user, fact) <==> Gains(s, e, user, fact) || Holds(s, user, fact)
  {
    AddressTaken(s, e.email);
  }

  lemma ResetFacts(s: Tables, e: Request, user: string, fact: Fact)
    requires e.ResetPassword?
    ensures var after := HandleReset(s, e.token, e.password, e.now, e.writes).0;
            Holds(after, user, fact) <==> Gains(s, e, user, fact) || (Holds(s, user, fact) && !Loses(s, e, user, fact))
  {
  }

  lemma ChangeFacts(s: Tables, e: Request, user: string, fact: Fact)
    requires e.ChangePassword?
    ensures var after := HandleChange(s, e.caller, e.current, e.password, e.writes).0;
            Holds(after, user, fact) <==> Gains(s, e, user, fact) || (Holds(s, user, fact) && !Loses(s, e, user, fact))
  {
  }

  lemma VerifyFacts(s: Tables, e: Request, user: string, fact: Fact)
    requires e.VerifyEmail?
    ensures var after := HandleVerify(s, e.token, e.now, e.writes).0;
            Holds(after, user, fact) <==> Gains(s, e, user, fact) || Holds(s, user, fact)
  {
  }

  lemma SwitchFacts(life: int, s: Tables, e: Request, user: string, fact: Fact)
    requires e.SetActive? || e.DeleteUser?
    ensures Holds(Handle(life, s, e).0, user, fact) <==>
              Gains(s, e, user, fact) || (Holds(s, user, fact) && !Loses(s, e, user, fact))
  {
  }

  lemma StepFacts(life: int, s: Tables, e: Request, user: string, fact: Fact)
    requires Fresh(s, e) && AccountsMatch(s.users, s.accounts)
    ensures Holds(Handle(life, s, e).0, user, fact) <==>
              Gains(s, e, user, fact) || (Holds(s, user, fact) && !Loses(s, e, user, fact))
  {
    if e.Register? {
      RegisterFacts(life, s, e, user, fact);
    } else if e.CreateUser? {
      CreateFacts(life, s, e, user, fact);
    } else if e.ResetPassword? {
      ResetFacts(s, e, user, fact);
    } else if e.ChangePassword? {
      ChangeFacts(s, e, user, fact);
    } else if e.VerifyEmail? {
      VerifyFacts(s, e, user, fact);
    } else if e.SetActive? || e.DeleteUser? {
      SwitchFacts(life, s, e, user, fact);
    } else {
      UsersLeft(life, s, e);
    }
  }

  // ---- Runs ----

  ghost predicate GainedAt(life: int, es: seq<Request>, i: int, user: string, fact: Fact) {
    0 <= i < |es| && Gains(Before(life, es, i), es[i], user, fact)
  }

  ghost predicate LostAt(life: int, es: seq<Request>, j: int, user: string, fact: Fact) {
    0 <= j < |es| && Loses(Before(life, es, j), es[j], user, fact)
  }

  /** The fact was brought about at `i` and has not been undone before `n`. */
  ghost predicate Since(life: int, es: seq<Request>, i: int, n: int, user: string, fact: Fact) {
    GainedAt(life, es, i, user, fact) && i < n && forall j :: i < j < n ==> !LostAt(life, es, j, user, fact)
  }

  ghost predicate Known(life: int, es: seq<Request>, n: int, user: string, fact: Fact) {
    exists i :: Since(life, es, i, n, user, fact)
  }

  lemma SinceLonger(life: int, es: seq<Request>, i: int, m: int, user: string, fact: Fact)
    requires 0 <= i < m < |es|
    ensures Since(life, es, i, m + 1, user, fact) <==>
              Since(life, es, i, m, user, fact) && !LostAt(life, es, m, user, fact)
  {
  }

  lemma KnownNext(life: int, es: seq<Request>, m: int, user: string, fact: Fact)
    requires 0 <= m < |es|
    ensures Known(life, es, m + 1, user, fact) <==>
              GainedAt(life, es, m, user, fact) || (Known(life, es, m, user, fact) && !LostAt(life, es, m, user, fact))
  {
    if GainedAt(life, es, m, user, fact) {
      assert Since(life, es, m, m + 1, user, fact);
    } else if Known(life, es, m + 1, user, fact) {
      var i :| Since(life, es, i, m + 1, user, fact);
      SinceLonger(life, es, i, m, user, fact);
    } else if Known(life, es, m, user, fact) {
      var i :| Since(life, es, i, m, user, fact);
      SinceLonger(life, es, i, m, user, fact);
    }
  }

  /**
   In every run a user has an address, a password, or is active or verified exactly when an earlier
   request brought that about and none has undone it since.
   */
  lemma {:induction false} FactExactlyWhen(life: int, es: seq<Request>, n: int, user: string, fact: Fact)
    requires FreshRun(life, es) && 0 <= n <= |es|
    ensures Holds(Before(life, es, n), user, fact) <==> Known(life, es, n, user, fact)
    decreases n
  {
    if n > 0 {
      var m := n - 1;
      FactExactlyWhen(life, es, m, user, fact);
      AddressesUnique(life, es, m);
      AfterStep(life, es, m);
      StepFacts(life, Before(life, es, m), es[m], user, fact);
      KnownNext(life, es, m, user, fact);
    } else {
      assert es[..0] == [];
    }
  }

  /**
   A user is verified exactly when a verification token of theirs was once presented in time, or an
   administrator created them so, and they have not been removed since.
   */
  lemma VerifiedExactlyWhen(life: int, es: seq<Request>, n: int, user: string)
    requires FreshRun(life, es) && 0 <= n <= |es|
    ensures (user in Before(life, es, n).users && Before(life, es, n).users[user].verified) <==>
              exists i :: Since(life, es, i, n, user, Verified)
  {
    FactExactlyWhen(life, es, n, user, Verified);
  }

  // ---- Who may log in ----

  predicate Has(s: Tables, user: string, email: string, password: string) {
    Holds(s, user, Address(email)) && Holds(s, user, Password(password))
  }

  predicate MayEnter(s: Tables, user: string, email: string, password: string) {
    Has(s, user, email, password) && Holds(s, user, Active) && Holds(s, user, Verified)
  }

  lemma LoginReply(life: int, s: Tables, e: Request)
    requires e.Login? && AccountsMatch(s.users, s.accounts)
    ensures var known, admitted := exists user :: Has(s, user, e.email, e.password),
                                   exists user :: MayEnter(s, user, e.email, e.password);
            Handle(life, s, e).1 ==
              if !known then Denied(401) else if !admitted then Denied(403)
              else if e.writes == 0 then Denied(500) else Issued(e.minted)
  {
    AddressTaken(s, e.email);
    if e.email in s.accounts {
      var user := s.accounts[e.email];
      assert Has(s, user, e.email, e.password) <==> s.users[user].password == e.password;
      assert forall u :: Has(s, u, e.email, e.password) ==> u == user;
      assert forall u :: MayEnter(s, u, e.email, e.password) ==> Has(s, u, e.email, e.password);
      assert MayEnter(s, user, e.email, e.password) <==>
             s.users[user].password == e.password && s.users[user].active && s.users[user].verified;
    }
  }

  /** The address is the user's and the password the one last set for them. */
  ghost predicate Matches(life: int, es: seq<Request>, n: int, user: string, email: string, password: string) {
    Known(life, es, n, user, Address(email)) && Known(life, es, n, user, Password(password))
  }

  ghost predicate Admitted(life: int, es: seq<Request>, n: int, user: string, email: string, password: string) {
    && Matches(life, es, n, user, email, password)
    && Known(life, es, n, user, Active) && Known(life, es, n, user, Verified)
  }

  /**
   In every run a login is answered 401 unless the address is a user's and the password the one last
   set for them, then 403 unless they are active and verified; else it gets a token, if its write goes
   through.
   */
  lemma LoginExactlyWhen(life: int, es: seq<Request>, k: int)
    requires FreshRun(life, es) && 0 <= k < |es| && es[k].Login?
    ensures var e := es[k];
            ReplyAt(life, es, k) ==
              if !exists user :: Matches(life, es, k, user, e.email, e.password) then Denied(401)
              else if !exists user :: Admitted(life, es, k, user, e.email, e.password) then Denied(403)
              else if e.writes == 0 then Denied(500) else Issued(e.minted)
  {
    var s, e := Before(life, es, k), es[k];
    AddressesUnique(life, es, k);
    LoginReply(life, s, e);
    forall user
      ensures Has(s, user, e.email, e.password) <==> Matches(life, es, k, user, e.email, e.password)
      ensures MayEnter(s, user, e.email, e.password) <==> Admitted(life, es, k, user, e.email, e.password)
    {
      FactExactlyWhen(life, es, k, user, Address(e.email));
      FactExactlyWhen(life, es, k, user, Password(e.password));
      FactExactlyWhen(life, es, k, user, Active);
      FactExactlyWhen(life, es, k, user, Verified);
    }
  }

  /** So nobody logs in who is not verified. */
  lemma LoginNeedsVerification(life: int, es: seq<Request>, k: int)
    requires FreshRun(life, es) && 0 <= k < |es| && es[k].Login? && ReplyAt(life, es, k).Issued?
    ensures es[k].email in Before(life, es, k).accounts
    ensures exists i :: Since(life, es, i, k, Before(life, es, k).accounts[es[k].email], Verified)
  {
    LoginExactlyWhen(life, es, k);
    var user :| Admitted(life, es, k, user, es[k].email, es[k].password);
    FactExactlyWhen(life, es, k, user, Address(es[k].email));
    AddressesUnique(life, es, k);
    AddressTaken(Before(life, es, k), es[k].email);
  }

  // ---- The other replies ----

  /** What the endpoints for signed-in users, and those for administrators, refuse. */
  predicate Refuses(s: Tables, caller: Option<string>, admin: bool, code: int) {
    if caller.None? || caller.value !in s.users then code == 401
    else code == 403 && !(Holds(s, caller.value, Active) && admin)
  }

  /** A change of password is for an active user who presents the password they have. */
  lemma ChangeReply(life: int, s: Tables, e: Request)
    requires e.ChangePassword?
    ensures var reply := Handle(life, s, e).1;
            if !Acts(s, e.caller) then reply.Denied? && Refuses(s, e.caller, true, reply.code)
            else if |e.password| < 8 then reply == Denied(422)
            else if !Holds(s, e.caller.value, Password(e.current)) then reply == Denied(400)
            else reply == if e.writes < 2 then Denied(500) else Accepted
  {
  }

  lemma LogoutReply(life: int, s: Tables, e: Request)
    requires e.Logout?
    ensures var reply := Handle(life, s, e).1;
            if !Acts(s, e.caller) then reply.Denied? && Refuses(s, e.caller, true, reply.code)
            else reply == if e.writes == 0 then Denied(500) else Accepted
  {
  }

  /** Creating, switching and removing users is for active administrators. */
  lemma AdministrationReply(life: int, s: Tables, e: Request)
    requires (e.CreateUser? || e.SetActive? || e.DeleteUser?) && AccountsMatch(s.users, s.accounts)
    ensures var reply := Handle(life, s, e).1;
            if !(Acts(s, e.caller) && e.admin) then reply.Denied? && Refuses(s, e.caller, e.admin, reply.code)
            else if e.CreateUser? && |e.password| < 8 then reply == Denied(422)
            else if e.CreateUser? && !IsFree(s, e.email) then reply == Denied(409)
            else reply == if e.writes == 0 then Denied(500) else Accepted
  {
    if e.CreateUser? {
      AddressTaken(s, e.email);
    }
  }

  lemma RegisterReply(life: int, s: Tables, e: Request)
    requires e.Register? && AccountsMatch(s.users, s.accounts)
    ensures Handle(life, s, e).1 ==
              if |e.password| < 8 then Denied(422) else if !IsFree(s, e.email) then Denied(409)
              else if e.writes < 2 then Denied(500) else Issued(e.minted)
  {
    AddressTaken(s, e.email);
  }

  /** A reset needs a long enough password, then a good token, then its three writes. */
  lemma ResetReply(life: int, s: Tables, e: Request)
    requires e.ResetPassword?
    ensures Handle(life, s, e).1 ==
              if |e.password| < 8 then Denied(422) else if !IsGood(s.resets, e.token, e.now) then Denied(400)
              else if e.writes < 3 then Denied(500) else Accepted
  {
  }

  lemma VerifyReply(life: int, s: Tables, e: Request)
    requires e.VerifyEmail?
    ensures Handle(life, s, e).1 ==
              if !IsGood(s.verifications, e.token, e.now) then Denied(400)
              else if e.writes < 2 then Denied(500) else Accepted
  {
  }

  /** A refresh token that is revoked or expired is refused like one whose owner is not active. */
  lemma RefreshReply(life: int, s: Tables, e: Request)
    requires e.Refresh?
    ensures var good := e.token in s.sessions && !s.sessions[e.token].revoked && e.now <= s.sessions[e.token].expires;
            Handle(life, s, e).1 ==
              if !good then Denied(401)
              else if e.writes == 0 then Denied(500)
              else if !Holds(s, s.sessions[e.token].user, Active) then Denied(401)
              else if e.writes == 1 then Denied(500) else Issued(e.minted)
  {
  }

  /**
   A token is mailed for the user with that address, if there is one, to verify only if they are not
   verified; else the reply gives nothing away.
   */
  lemma MailReply(life: int, s: Tables, e: Request)
    requires (e.ForgotPassword? || e.ResendVerification?) && AccountsMatch(s.users, s.accounts)
    ensures var wanted := exists user :: Holds(s, user, Address(e.email))
                                      && (e.ForgotPassword? || !Holds(s, user, Verified));
            Handle(life, s, e).1 ==
              if !wanted then Accepted else if e.writes == 0 then Denied(500) else Issued(e.minted)
  {
    AddressTaken(s, e.email);
    if e.email in s.accounts {
      assert Holds(s, s.accounts[e.email], Address(e.email));
    }
  }

  /** The row of a mailed token names the user it was mailed for. */
  lemma MailedOwner(life: int, s: Tables, e: Request, kind: Kind, token: string)
    requires Fresh(s, e) && AccountsMatch(s.users, s.accounts) && Mails(life, s, e, kind, token)
    ensures var m := Table(Handle(life, s, e).0, kind);
            token in m && if e.Register? then m[token].user == e.id else Holds(s, m[token].user, Address(e.email))
  {
    AddressTaken(s, e.email);
  }
}
