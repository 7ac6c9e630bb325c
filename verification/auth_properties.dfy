/** What every serial run of the authentication endpoints keeps, in terms of the requests alone. */
module AuthProperties {
  import opened Wrappers
  import opened AuthSpec

  // ---- Refresh tokens ----

  ghost predicate Grants(life: int, s: Tables, e: Request, token: string) {
    (e.Login? || e.Refresh?) && Handle(life, s, e).1 == Issued(token)
  }

  /** Whom a granted token is for. */
  function Owner(s: Tables, e: Request): string {
    if e.Login? && e.email in s.accounts then s.accounts[e.email]
    else if e.Refresh? && e.token in s.sessions then s.sessions[e.token].user
    else ""
  }

  /** A successful password reset or change of the user. */
  ghost predicate Clears(life: int, s: Tables, e: Request, user: string) {
    && Handle(life, s, e).1 == Accepted
    && ((e.ResetPassword? && s.resets[e.token].user == user) || (e.ChangePassword? && e.caller.value == user))
  }

  /** Presenting the token in time (whether or not it is exchanged), logging it out, or clearing its owner. */
  ghost predicate Ends(life: int, s: Tables, e: Request, token: string, owner: string) {
    || (e.Refresh? && e.token == token && Exchangeable(s, token, e.now) && e.writes > 0)
    || (e.Logout? && e.token == token && CallerCheck(s, e.caller) == 200 && e.writes > 0)
    || Clears(life, s, e, owner)
  }

  predicate Live(s: Tables, token: string) { token in s.sessions && !s.sessions[token].revoked }

  /** One request: the rows keep their owner and expiry, and what is revoked or used stays so. */
  ghost predicate RowsKept(s: Tables, t: Tables) {
    SessionsKept(s.sessions, t.sessions) && TableKept(s.resets, t.resets) && TableKept(s.verifications, t.verifications)
  }

  ghost predicate SessionsKept(m: map<string, Session>, n: map<string, Session>) {
    forall k :: k in m ==>
      k in n && n[k].user == m[k].user && n[k].expires == m[k].expires && (m[k].revoked ==> n[k].revoked)
  }

  ghost predicate TableKept(m: map<string, OneTime>, n: map<string, OneTime>) {
    forall k :: k in m ==> k in n && n[k].user == m[k].user && n[k].expires == m[k].expires && (m[k].used ==> n[k].used)
  }

  predicate LeavesSessions(e: Request) {
    !(e.Login? || e.Logout? || e.Refresh? || e.ResetPassword? || e.ChangePassword?)
  }

  lemma SessionsLeft(life: int, s: Tables, e: Request)
    requires LeavesSessions(e)
    ensures Handle(life, s, e).0.sessions == s.sessions
  {
  }

  lemma GrantKeepsSessions(life: int, s: Tables, user: string, minted: string, now: int, writes: nat)
    requires minted !in s.sessions
    ensures SessionsKept(s.sessions, Grant(life, s, user, minted, now, writes).0.sessions)
  {
  }

  lemma RefreshKeepsSessions(life: int, s: Tables, token: string, minted: string, now: int, writes: nat)
    requires minted !in s.sessions
    ensures SessionsKept(s.sessions, HandleRefresh(life, s, token, minted, now, writes).0.sessions)
  {
  }

  lemma ResetKeepsSessions(s: Tables, token: string, password: string, now: int, writes: nat)
    ensures SessionsKept(s.sessions, HandleReset(s, token, password, now, writes).0.sessions)
  {
  }

  lemma ChangeKeepsSessions(s: Tables, caller: Option<string>, current: string, password: string, writes: nat)
    ensures SessionsKept(s.sessions, HandleChange(s, caller, current, password, writes).0.sessions)
  {
  }

  lemma StepKeepsSessions(life: int, s: Tables, e: Request)
    requires Fresh(s, e)
    ensures SessionsKept(s.sessions, Handle(life, s, e).0.sessions)
  {
    if LeavesSessions(e) {
      SessionsLeft(life, s, e);
    } else if e.Login? {
      if LoginCheck(s, e.email, e.password) == 200 {
        GrantKeepsSessions(life, s, s.accounts[e.email], e.minted, e.now, e.writes);
      }
    } else if e.Refresh? {
      RefreshKeepsSessions(life, s, e.token, e.minted, e.now, e.writes);
    } else if e.ResetPassword? {
      ResetKeepsSessions(s, e.token, e.password, e.now, e.writes);
    } else if e.ChangePassword? {
      ChangeKeepsSessions(s, e.caller, e.current, e.password, e.writes);
    }
  }

  lemma StepKeepsRows(life: int, s: Tables, e: Request)
    requires Fresh(s, e)
    ensures RowsKept(s, Handle(life, s, e).0)
  {
    StepKeepsSessions(life, s, e);
    StepKeepsResets(life, s, e);
    StepKeepsVerifications(life, s, e);
  }

  lemma ResetsLeft(life: int, s: Tables, e: Request)
    requires !e.ForgotPassword? && !e.ResetPassword?
    ensures Handle(life, s, e).0.resets == s.resets
  {
  }

  lemma ResetKeepsTable(s: Tables, token: string, password: string, now: int, writes: nat)
    ensures TableKept(s.resets, HandleReset(s, token, password, now, writes).0.resets)
  {
  }

  lemma StepKeepsResets(life: int, s: Tables, e: Request)
    requires Fresh(s, e)
    ensures TableKept(s.resets, Handle(life, s, e).0.resets)
  {
    if e.ResetPassword? {
      ResetKeepsTable(s, e.token, e.password, e.now, e.writes);
    } else if !e.ForgotPassword? {
      ResetsLeft(life, s, e);
    }
  }

  lemma VerificationsLeft(life: int, s: Tables, e: Request)
    requires !e.Register? && !e.ResendVerification? && !e.VerifyEmail?
    ensures Handle(life, s, e).0.verifications == s.verifications
  {
  }

  lemma StepKeepsVerifications(life: int, s: Tables, e: Request)
    requires Fresh(s, e)
    ensures TableKept(s.verifications, Handle(life, s, e).0.verifications)
  {
    if !e.Register? && !e.ResendVerification? && !e.VerifyEmail? {
      VerificationsLeft(life, s, e);
    }
  }

  lemma AfterStep(life: int, es: seq<Request>, n: int)
    requires 0 <= n < |es|
    ensures Before(life, es, n + 1) == Handle(life, Before(life, es, n), es[n]).0
  {
    assert es[..n + 1][..n] == es[..n];
  }

  lemma KeptTwice(s: Tables, t: Tables, u: Tables)
    requires RowsKept(s, t) && RowsKept(t, u)
    ensures RowsKept(s, u)
  {
  }

  /** Over any run, revoked and used flags never go back, and owners and expiries never change. */
  lemma {:induction false} RunKeepsRows(life: int, es: seq<Request>, i: int, k: int)
    requires FreshRun(life, es) && 0 <= i <= k <= |es|
    ensures RowsKept(Before(life, es, i), Before(life, es, k))
    decreases k - i
  {
    if i < k {
      RunKeepsRows(life, es, i, k - 1);
      AfterStep(life, es, k - 1);
      StepKeepsRows(life, Before(life, es, k - 1), es[k - 1]);
      KeptTwice(Before(life, es, i), Before(life, es, k - 1), Before(life, es, k));
    }
  }

  lemma LeftLive(life: int, s: Tables, e: Request, token: string, owner: string)
    requires LeavesSessions(e) || e.Logout?
    ensures Live(Handle(life, s, e).0, token) <==> Live(s, token) && !Ends(life, s, e, token, owner)
  {
  }

  lemma RefreshLive(life: int, s: Tables, e: Request, token: string)
    requires e.Refresh? && Fresh(s, e)
    ensures Live(Handle(life, s, e).0, token) <==>
              Grants(life, s, e, token)
              || (Live(s, token) && !(e.token == token && Exchangeable(s, token, e.now) && e.writes > 0))
  {
  }

  lemma ClearedLive(life: int, s: Tables, e: Request, token: string)
    requires (e.ResetPassword? || e.ChangePassword?) && token in s.sessions
    ensures Live(Handle(life, s, e).0, token) <==> Live(s, token) && !Clears(life, s, e, s.sessions[token].user)
  {
  }

  lemma StepLive(life: int, s: Tables, e: Request, token: string, owner: string)
    requires Fresh(s, e) && (token in s.sessions ==> owner == s.sessions[token].user)
    ensures Live(Handle(life, s, e).0, token) <==>
              Grants(life, s, e, token) || (Live(s, token) && !Ends(life, s, e, token, owner))
  {
    if LeavesSessions(e) || e.Logout? {
      LeftLive(life, s, e, token, owner);
    } else if e.Refresh? {
      RefreshLive(life, s, e, token);
    } else if (e.ResetPassword? || e.ChangePassword?) && token in s.sessions {
      ClearedLive(life, s, e, token);
    }
  }

  ghost predicate GrantedAt(life: int, es: seq<Request>, i: int, token: string) {
    0 <= i < |es| && Grants(life, Before(life, es, i), es[i], token)
  }

  ghost predicate EndedAt(life: int, es: seq<Request>, j: int, token: string, owner: string) {
    0 <= j < |es| && Ends(life, Before(life, es, j), es[j], token, owner)
  }

  /** The row a grant leaves is the row found later. */
  lemma GrantedRow(life: int, es: seq<Request>, i: int, k: int, token: string)
    requires FreshRun(life, es) && GrantedAt(life, es, i, token) && i < k <= |es|
    ensures var s := Before(life, es, k);
            && token in s.sessions && s.sessions[token].user == Owner(Before(life, es, i), es[i])
            && s.sessions[token].expires == es[i].now + life
  {
    AfterStep(life, es, i);
    RunKeepsRows(life, es, i + 1, k);
  }

  /** The token was granted at `i` and has not ended before `n`. */
  ghost predicate LiveSince(life: int, es: seq<Request>, i: int, n: int, token: string) {
    && GrantedAt(life, es, i, token) && i < n
    && forall j :: i < j < n ==> !EndedAt(life, es, j, token, Owner(Before(life, es, i), es[i]))
  }

  lemma LiveLonger(life: int, es: seq<Request>, i: int, m: int, token: string)
    requires 0 <= i < m < |es|
    ensures LiveSince(life, es, i, m + 1, token) <==>
              LiveSince(life, es, i, m, token) && !EndedAt(life, es, m, token, Owner(Before(life, es, i), es[i]))
  {
    var owner := Owner(Before(life, es, i), es[i]);
    assert (forall j :: i < j < m + 1 ==> !EndedAt(life, es, j, token, owner)) <==>
           (forall j :: i < j < m ==> !EndedAt(life, es, j, token, owner)) && !EndedAt(life, es, m, token, owner);
  }

  lemma BornOrLive(life: int, es: seq<Request>, m: int, token: string)
    requires FreshRun(life, es) && 0 <= m < |es| && Live(Before(life, es, m + 1), token)
    ensures GrantedAt(life, es, m, token) || Live(Before(life, es, m), token)
  {
    var s := Before(life, es, m);
    AfterStep(life, es, m);
    StepLive(life, s, es[m], token, if token in s.sessions then s.sessions[token].user else "");
  }

  lemma BornLive(life: int, es: seq<Request>, m: int, token: string)
    requires FreshRun(life, es) && GrantedAt(life, es, m, token)
    ensures Live(Before(life, es, m + 1), token)
  {
    var s := Before(life, es, m);
    AfterStep(life, es, m);
    StepLive(life, s, es[m], token, if token in s.sessions then s.sessions[token].user else "");
  }

  lemma LiveUntilEnded(life: int, es: seq<Request>, i: int, m: int, token: string)
    requires FreshRun(life, es) && GrantedAt(life, es, i, token) && i < m < |es| && Live(Before(life, es, m), token)
    ensures Live(Before(life, es, m + 1), token) <==> !EndedAt(life, es, m, token, Owner(Before(life, es, i), es[i]))
  {
    GrantedRow(life, es, i, m, token);
    AfterStep(life, es, m);
    StepLive(life, Before(life, es, m), es[m], token, Owner(Before(life, es, i), es[i]));
  }

  lemma {:induction false} LiveExactlyWhen(life: int, es: seq<Request>, n: int, token: string)
    requires FreshRun(life, es) && 0 <= n <= |es|
    ensures Live(Before(life, es, n), token) <==> exists i :: LiveSince(life, es, i, n, token)
    decreases n
  {
    if n > 0 {
      var m := n - 1;
      LiveExactlyWhen(life, es, m, token);
      if Live(Before(life, es, n), token) {
        BornOrLive(life, es, m, token);
        if GrantedAt(life, es, m, token) {
          assert LiveSince(life, es, m, n, token);
        } else {
          var i :| LiveSince(life, es, i, m, token);
          LiveUntilEnded(life, es, i, m, token);
          LiveLonger(life, es, i, m, token);
        }
      } else if exists i :: LiveSince(life, es, i, n, token) {
        var i :| LiveSince(life, es, i, n, token);
        if i == m {
          BornLive(life, es, m, token);
        } else {
          LiveLonger(life, es, i, m, token);
          LiveUntilEnded(life, es, i, m, token);
        }
      }
    }
  }

  /**
   A refresh token is exchanged exactly when it was granted earlier, has not been presented in time,
   logged out or cleared with a password since, has not expired, its owner is active, and both writes
   go through.
   */
  lemma ExchangedExactlyWhen(life: int, es: seq<Request>, k: int)
    requires FreshRun(life, es) && 0 <= k < |es| && es[k].Refresh?
    ensures ReplyAt(life, es, k).Issued? <==>
              && es[k].writes >= 2
              && exists i :: LiveSince(life, es, i, k, es[k].token) && es[k].now <= es[i].now + life
                          && IsActive(Before(life, es, k), Owner(Before(life, es, i), es[i]))
  {
    var token := es[k].token;
    LiveExactlyWhen(life, es, k, token);
    forall i | LiveSince(life, es, i, k, token)
      ensures var s := Before(life, es, k);
              && token in s.sessions && s.sessions[token].user == Owner(Before(life, es, i), es[i])
              && s.sessions[token].expires == es[i].now + life
    {
      GrantedRow(life, es, i, k, token);
    }
  }

  lemma StaysRevoked(life: int, es: seq<Request>, j: int, k: int, token: string)
    requires FreshRun(life, es) && 0 <= j <= k < |es| && es[k].Refresh? && es[k].token == token
    requires token in Before(life, es, j).sessions && !Live(Before(life, es, j), token)
    ensures ReplyAt(life, es, k) == Denied(401)
  {
    RunKeepsRows(life, es, j, k);
  }

  /** Each refresh token is exchanged at most once. */
  lemma ExchangedOnce(life: int, es: seq<Request>, i: int, k: int)
    requires FreshRun(life, es) && 0 <= i < k < |es| && es[i].Refresh? && es[k].Refresh? && es[i].token == es[k].token
    requires ReplyAt(life, es, i).Issued?
    ensures ReplyAt(life, es, k) == Denied(401)
  {
    AfterStep(life, es, i);
    StaysRevoked(life, es, i + 1, k, es[k].token);
  }

  lemma ClearingRevokes(life: int, s: Tables, e: Request, token: string)
    requires token in s.sessions && Clears(life, s, e, s.sessions[token].user)
    ensures token in Handle(life, s, e).0.sessions && !Live(Handle(life, s, e).0, token)
  {
  }

  /** No refresh token granted to a user before a password reset or change is accepted after it. */
  lemma ResetEndsSessions(life: int, es: seq<Request>, i: int, j: int, k: int)
    requires FreshRun(life, es) && 0 <= i < j < k < |es| && es[k].Refresh? && GrantedAt(life, es, i, es[k].token)
    requires Clears(life, Before(life, es, j), es[j], Owner(Before(life, es, i), es[i]))
    ensures ReplyAt(life, es, k) == Denied(401)
  {
    GrantedRow(life, es, i, j, es[k].token);
    ClearedStaysOut(life, es, j, k, es[k].token);
  }

  lemma ClearedStaysOut(life: int, es: seq<Request>, j: int, k: int, token: string)
    requires FreshRun(life, es) && 0 <= j < k < |es| && es[k].Refresh? && es[k].token == token
    requires var s := Before(life, es, j); token in s.sessions && Clears(life, s, es[j], s.sessions[token].user)
    ensures ReplyAt(life, es, k) == Denied(401)
  {
    AfterStep(life, es, j);
    ClearingRevokes(life, Before(life, es, j), es[j], token);
    StaysRevoked(life, es, j + 1, k, token);
  }

  // ---- How many sessions ----

  function LiveTokens(s: Tables, user: string): set<string> {
    set t | t in s.sessions && s.sessions[t].user == user && !s.sessions[t].revoked
  }

  ghost predicate LogsIn(life: int, s: Tables, e: Request, user: string) {
    e.Login? && e.email in s.accounts && s.accounts[e.email] == user && Handle(life, s, e).1.Issued?
  }

  /** Successful logins since the last successful password reset or change. */
  ghost function Logins(life: int, es: seq<Request>, user: string): nat {
    if es == [] then 0
    else
      var before := es[..|es| - 1];
      var s, e := After(life, before), es[|es| - 1];
      if Clears(life, s, e, user) then 0 else Logins(life, before, user) + if LogsIn(life, s, e, user) then 1 else 0
  }

  /**
   What one request does to the user's live tokens: swap one for another at most, add one at a login,
   or drop some.
   */
  lemma StepLiveTokens(life: int, s: Tables, e: Request, user: string)
    requires Fresh(s, e)
    ensures var now := LiveTokens(Handle(life, s, e).0, user);
            if Clears(life, s, e, user) then now == {}
            else if LogsIn(life, s, e, user) then now == LiveTokens(s, user) + {e.minted}
            else now <= LiveTokens(s, user)
                 || (e.Refresh? && e.token in LiveTokens(s, user)
                      && now == LiveTokens(s, user) - {e.token} + {e.minted})
  {
  }

  /** A user's live refresh tokens never outnumber the successful logins since the last password reset or change. */
  lemma {:induction false} SessionsBounded(life: int, es: seq<Request>, user: string)
    requires FreshRun(life, es)
    ensures |LiveTokens(After(life, es), user)| <= Logins(life, es, user)
  {
    if es == [] {
      assert LiveTokens(NONE, user) == {};
    } else {
      var before := es[..|es| - 1];
      FreshRunPrefix(life, es, |es| - 1);
      SessionsBounded(life, before, user);
      var s, e := After(life, before), es[|es| - 1];
      assert Before(life, es, |es| - 1) == s;
      StepLiveTokens(life, s, e, user);
      var was, now := LiveTokens(s, user), LiveTokens(After(life, es), user);
      if now <= was {
        Fewer(now, was);
      }
    }
  }

  lemma Fewer(a: set<string>, b: set<string>)
    requires a <= b
    ensures |a| <= |b|
  {
    assert b == a + (b - a);
  }

  // ---- One-time tokens ----

  datatype Kind = ToReset | ToVerify

  function Table(s: Tables, kind: Kind): map<string, OneTime> { if kind.ToReset? then s.resets else s.verifications }

  function Lifetime(kind: Kind): int { if kind.ToReset? then 3600 else 86400 }

  ghost predicate Mails(life: int, s: Tables, e: Request, kind: Kind, token: string) {
    && (if kind.ToReset? then e.ForgotPassword? else e.Register? || e.ResendVerification?)
    && Handle(life, s, e).1 == Issued(token)
  }

  /** The request presents the token as one of its kind. */
  predicate Presents(e: Request, kind: Kind, token: string) {
    if kind.ToReset? then e.ResetPassword? && e.token == token else e.VerifyEmail? && e.token == token
  }

  /** The number of writes it takes to redeem a token; its mark is the last but one, or the last. */
  function WritesToRedeem(kind: Kind): nat { if kind.ToReset? then 3 else 2 }

  /** Presenting a good token with the write that marks it going through, whether or not all of them do. */
  ghost predicate Spends(s: Tables, e: Request, kind: Kind, token: string) {
    && Presents(e, kind, token) && Redeemable(Table(s, kind), token, e.now) && e.writes >= 2
    && (kind.ToReset? ==> |e.password| >= MIN_PASSWORD)
  }

  predicate Unused(s: Tables, kind: Kind, token: string) { token in Table(s, kind) && !Table(s, kind)[token].used }

  lemma StepUnused(life: int, s: Tables, e: Request, kind: Kind, token: string)
    requires Fresh(s, e)
    ensures Unused(Handle(life, s, e).0, kind, token) <==>
              Mails(life, s, e, kind, token) || (Unused(s, kind, token) && !Spends(s, e, kind, token))
  {
    if kind.ToReset? {
      StepUnusedReset(life, s, e, token);
    } else {
      StepUnusedVerification(life, s, e, token);
    }
  }

  lemma PresentedReset(s: Tables, presented: string, password: string, now: int, writes: nat, token: string)
    ensures var after := HandleReset(s, presented, password, now, writes).0;
            Unused(after, ToReset, token) <==>
              && Unused(s, ToReset, token)
              && !(presented == token && Redeemable(s.resets, token, now) && writes >= 2 && |password| >= MIN_PASSWORD)
  {
  }

  lemma StepUnusedReset(life: int, s: Tables, e: Request, token: string)
    requires Fresh(s, e)
    ensures Unused(Handle(life, s, e).0, ToReset, token) <==>
              Mails(life, s, e, ToReset, token) || (Unused(s, ToReset, token) && !Spends(s, e, ToReset, token))
  {
    if e.ResetPassword? {
      PresentedReset(s, e.token, e.password, e.now, e.writes, token);
    } else if !e.ForgotPassword? {
      ResetsLeft(life, s, e);
    }
  }

  lemma StepUnusedVerification(life: int, s: Tables, e: Request, token: string)
    requires Fresh(s, e)
    ensures Unused(Handle(life, s, e).0, ToVerify, token) <==>
              Mails(life, s, e, ToVerify, token) || (Unused(s, ToVerify, token) && !Spends(s, e, ToVerify, token))
  {
  }

  ghost predicate MailedAt(life: int, es: seq<Request>, i: int, kind: Kind, token: string) {
    0 <= i < |es| && Mails(life, Before(life, es, i), es[i], kind, token)
  }

  ghost predicate SpentAt(life: int, es: seq<Request>, j: int, kind: Kind, token: string) {
    0 <= j < |es| && Spends(Before(life, es, j), es[j], kind, token)
  }

  /** The token was mailed at `i` and has not been spent before `n`. */
  ghost predicate UnusedSince(life: int, es: seq<Request>, i: int, n: int, kind: Kind, token: string) {
    MailedAt(life, es, i, kind, token) && i < n && forall j :: i < j < n ==> !SpentAt(life, es, j, kind, token)
  }

  lemma MailedRow(life: int, es: seq<Request>, i: int, k: int, kind: Kind, token: string)
    requires FreshRun(life, es) && MailedAt(life, es, i, kind, token) && i < k <= |es|
    ensures var m := Table(Before(life, es, k), kind);
            token in m && m[token].expires == es[i].now + Lifetime(kind)
  {
    AfterStep(life, es, i);
    RunKeepsRows(life, es, i + 1, k);
  }

  lemma UnusedLonger(life: int, es: seq<Request>, i: int, m: int, kind: Kind, token: string)
    requires 0 <= i < m < |es|
    ensures UnusedSince(life, es, i, m + 1, kind, token) <==>
              UnusedSince(life, es, i, m, kind, token) && !SpentAt(life, es, m, kind, token)
  {
  }

  lemma UnusedNext(life: int, es: seq<Request>, m: int, kind: Kind, token: string)
    requires FreshRun(life, es) && 0 <= m < |es|
    ensures Unused(Before(life, es, m + 1), kind, token) <==>
              MailedAt(life, es, m, kind, token)
                || (Unused(Before(life, es, m), kind, token) && !SpentAt(life, es, m, kind, token))
  {
    AfterStep(life, es, m);
    StepUnused(life, Before(life, es, m), es[m], kind, token);
  }

  lemma {:induction false} UnusedExactlyWhen(life: int, es: seq<Request>, n: int, kind: Kind, token: string)
    requires FreshRun(life, es) && 0 <= n <= |es|
    ensures Unused(Before(life, es, n), kind, token) <==> exists i :: UnusedSince(life, es, i, n, kind, token)
    decreases n
  {
    if n > 0 {
      var m := n - 1;
      UnusedExactlyWhen(life, es, m, kind, token);
      UnusedNext(life, es, m, kind, token);
      if Unused(Before(life, es, n), kind, token) {
        if MailedAt(life, es, m, kind, token) {
          assert UnusedSince(life, es, m, n, kind, token);
        } else {
          var i :| UnusedSince(life, es, i, m, kind, token);
          UnusedLonger(life, es, i, m, kind, token);
        }
      } else if exists i :: UnusedSince(life, es, i, n, kind, token) {
        var i :| UnusedSince(life, es, i, n, kind, token);
        if i != m {
          UnusedLonger(life, es, i, m, kind, token);
        }
      }
    }
  }

  /**
   A reset or verification token is accepted exactly when it was mailed earlier, has not been spent
   since and has not expired (and, to reset, when the new password is long enough), and every write
   goes through. Nothing else ends it: a password change, or another reset, leaves older reset tokens good.
   */
  lemma RedeemedExactlyWhen(life: int, es: seq<Request>, k: int, kind: Kind, token: string)
    requires FreshRun(life, es) && 0 <= k < |es| && Presents(es[k], kind, token)
    ensures ReplyAt(life, es, k) == Accepted <==>
              && (kind.ToReset? ==> |es[k].password| >= MIN_PASSWORD) && es[k].writes >= WritesToRedeem(kind)
              && exists i :: UnusedSince(life, es, i, k, kind, token) && es[k].now <= es[i].now + Lifetime(kind)
  {
    UnusedExactlyWhen(life, es, k, kind, token);
    forall i | UnusedSince(life, es, i, k, kind, token)
      ensures token in Table(Before(life, es, k), kind)
                && Table(Before(life, es, k), kind)[token].expires == es[i].now + Lifetime(kind)
    {
      MailedRow(life, es, i, k, kind, token);
    }
  }

  /** Each reset or verification token is redeemed at most once. */
  lemma RedeemedOnce(life: int, es: seq<Request>, i: int, k: int, kind: Kind, token: string)
    requires FreshRun(life, es) && 0 <= i < k < |es|
    requires Presents(es[i], kind, token) && ReplyAt(life, es, i) == Accepted && Presents(es[k], kind, token)
    ensures ReplyAt(life, es, k).Denied?
  {
    AfterStep(life, es, i);
    RedeemingMarks(life, Before(life, es, i), es[i], kind, token);
    RunKeepsRows(life, es, i + 1, k);
    MarkedIsDenied(life, Before(life, es, k), es[k], kind, token);
  }

  predicate Marked(s: Tables, kind: Kind, token: string) { token in Table(s, kind) && Table(s, kind)[token].used }

  lemma RedeemingMarks(life: int, s: Tables, e: Request, kind: Kind, token: string)
    requires Presents(e, kind, token) && Handle(life, s, e).1 == Accepted
    ensures Marked(Handle(life, s, e).0, kind, token)
  {
  }

  lemma MarkedIsDenied(life: int, s: Tables, e: Request, kind: Kind, token: string)
    requires Presents(e, kind, token) && Marked(s, kind, token)
    ensures Handle(life, s, e).1.Denied?
  {
  }

  // ---- Users ----

  /** The lookup by email and the users match: no two users share an address. */
  ghost predicate AccountsMatch(users: map<string, User>, accounts: map<string, string>) {
    && (forall id :: id in users ==> users[id].email in accounts && accounts[users[id].email] == id)
    && (forall email :: email in accounts ==> accounts[email] in users && users[accounts[email]].email == email)
  }

  lemma AddMatches(s: Tables, id: string, user: User)
    requires AccountsMatch(s.users, s.accounts) && id !in s.users && user.email !in s.accounts
    ensures AccountsMatch(AddUser(s, id, user).users, AddUser(s, id, user).accounts)
  {
  }

  lemma RemoveMatches(s: Tables, id: string)
    requires AccountsMatch(s.users, s.accounts)
    ensures AccountsMatch(RemoveUser(s, id).users, RemoveUser(s, id).accounts)
  {
  }

  /** The same users with the same addresses. */
  ghost predicate SameAddresses(users: map<string, User>, after: map<string, User>) {
    after.Keys == users.Keys && forall id :: id in users ==> after[id].email == users[id].email
  }

  lemma SameMatches(users: map<string, User>, after: map<string, User>, accounts: map<string, string>)
    requires AccountsMatch(users, accounts) && SameAddresses(users, after)
    ensures AccountsMatch(after, accounts)
  {
  }

  predicate LeavesUsers(e: Request) {
    e.Login? || e.Logout? || e.Refresh? || e.ForgotPassword? || e.ResendVerification?
  }

  lemma UsersLeft(life: int, s: Tables, e: Request)
    requires LeavesUsers(e)
    ensures Handle(life, s, e).0.users == s.users && Handle(life, s, e).0.accounts == s.accounts
  {
  }

  lemma ResetAddresses(s: Tables, token: string, password: string, now: int, writes: nat)
    ensures var after := HandleReset(s, token, password, now, writes).0;
            SameAddresses(s.users, after.users) && after.accounts == s.accounts
  {
  }

  lemma ChangeAddresses(s: Tables, caller: Option<string>, current: string, password: string, writes: nat)
    ensures var after := HandleChange(s, caller, current, password, writes).0;
            SameAddresses(s.users, after.users) && after.accounts == s.accounts
  {
  }

  lemma VerifyAddresses(s: Tables, token: string, now: int, writes: nat)
    ensures var after := HandleVerify(s, token, now, writes).0;
            SameAddresses(s.users, after.users) && after.accounts == s.accounts
  {
  }

  lemma ActiveAddresses(life: int, s: Tables, e: Request)
    requires e.SetActive?
    ensures SameAddresses(s.users, Handle(life, s, e).0.users) && Handle(life, s, e).0.accounts == s.accounts
  {
  }

  lemma StepAddresses(life: int, s: Tables, e: Request)
    requires !e.Register? && !e.CreateUser? && !e.DeleteUser?
    ensures SameAddresses(s.users, Handle(life, s, e).0.users) && Handle(life, s, e).0.accounts == s.accounts
  {
    match e
    case ResetPassword(token, password, now, writes) => ResetAddresses(s, token, password, now, writes);
    case ChangePassword(caller, current, password, writes) => ChangeAddresses(s, caller, current, password, writes);
    case VerifyEmail(token, now, writes) => VerifyAddresses(s, token, now, writes);
    case SetActive(_, _, _, _, _) => ActiveAddresses(life, s, e);
    case _ => UsersLeft(life, s, e);
  }

  lemma StepMatches(life: int, s: Tables, e: Request)
    requires Fresh(s, e) && AccountsMatch(s.users, s.accounts)
    ensures AccountsMatch(Handle(life, s, e).0.users, Handle(life, s, e).0.accounts)
  {
    if e.Register? {
      if e.email !in s.accounts {
        AddMatches(s, e.id, User(e.email, e.password, true, false));
      }
    } else if e.CreateUser? {
      if e.email !in s.accounts {
        AddMatches(s, e.id, User(e.email, e.password, e.active, e.verified));
      }
    } else if e.DeleteUser? {
      RemoveMatches(s, e.user);
    } else {
      StepAddresses(life, s, e);
      SameMatches(s.users, Handle(life, s, e).0.users, s.accounts);
    }
  }

  /** In every run each address belongs to at most one user. */
  lemma {:induction false} AddressesUnique(life: int, es: seq<Request>, n: int)
    requires FreshRun(life, es) && 0 <= n <= |es|
    ensures AccountsMatch(Before(life, es, n).users, Before(life, es, n).accounts)
    decreases n
  {
    if n > 0 {
      AddressesUnique(life, es, n - 1);
      AfterStep(life, es, n - 1);
      StepMatches(life, Before(life, es, n - 1), es[n - 1]);
    }
  }
}
