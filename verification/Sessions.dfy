/** Sessions over whole runs: the table says no more and no less than the logins and logouts that happened. */
module Sessions {
  import opened Options
  import opened Text
  import opened Uuids
  import opened Tables
  import opened Schema
  import opened Router
  import opened Sql
  import opened Service
  import opened Lookup
  import opened Invariant
  import opened Effects
  import Json

  /** The tables that request `i` of a run found. */
  function Found(env: Env, h: seq<Entry>, i: nat): Db
    requires i < |h|
  {
    Run(env, h[..i])
  }

  /** Request `e` signed the user in and returned this token. */
  ghost predicate SignedInWith(env: Env, db: Db, e: Entry, token: Uuid, user: Uuid) {
    && IsLogin(env, db, e)
    && ReplyTo(env, db, e).payload.SignedIn? && ReplyTo(env, db, e).payload.token == token
    && exists u :: u in db.users && u.id == user && Some(u.email) == LoginName(env, e)
  }

  /** The e-mail address, in lower case, that a login names. */
  function LoginName(env: Env, e: Entry): Option<string> {
    match Json.GetString(JsonFor(env, e), "email", 5, 254)
    case None => None
    case Some(email) => Some(Lower(email))
  }

  /** Request `e` closed the session of this token. */
  predicate SignedOutWith(env: Env, db: Db, e: Entry, token: Uuid) {
    IsLogout(env, db, e) && BearerToken(e.request.authorization) == Some(token)
  }

  ghost predicate OpenedAt(env: Env, h: seq<Entry>, i: nat, token: Uuid, user: Uuid) {
    i < |h| && SignedInWith(env, Found(env, h, i), h[i], token, user)
  }

  ghost predicate ClosedAt(env: Env, h: seq<Entry>, i: nat, token: Uuid) {
    i < |h| && SignedOutWith(env, Found(env, h, i), h[i], token)
  }

  function ExpiryOf(e: Entry): Time {
    e.moment.now + Hours(e.settings.tokenTtlHours)
  }

  // ----- one step -----

  /** The last row of `after` is the session of this login: for the confirmed user of the
      address whose hash the password reproduces, and nobody else. */
  ghost predicate AddsSession(env: Env, db: Db, e: Entry, after: Db) {
    && |after.sessions| == |db.sessions| + 1
    && after.sessions[..|db.sessions|] == db.sessions
    && var s := after.sessions[|db.sessions|];
    && s == Session(s.token, s.userId, ExpiryOf(e), None, e.moment.now, e.moment.now)
    && SignedInWith(env, db, e, s.token, s.userId)
    && (forall k, u :: SignedInWith(env, db, e, k, u) ==> k == s.token && u == s.userId)
    && (forall t :: t in db.sessions ==> t.token != s.token)
    && (exists u :: u in db.users && u.id == s.userId && u.confirmedAt.Some? && Some(u.email) == LoginName(env, e)
           && Matches(env, e, u))
  }

  predicate Matches(env: Env, e: Entry, u: User) {
    u.passwordHash == env.crypt(TextOr(Json.GetString(JsonFor(env, e), "password", 1, 256)), u.passwordHash)
  }

  /** A login adds one session, for the user of the e-mail address, under an unused token. */
  lemma LoginAddsSession(env: Env, db: Db, e: Entry)
    requires Valid(env, db) && IsLogin(env, db, e)
    ensures AddsSession(env, db, e, After(env, db, e))
  {
    StepIsServe(env, db, e);
    hide Step, Recognise, IsUtf8, Validation.Email, Lower, Json.GetString, JsonFor, Reached, AccountsOk, SessionsOk,
         FavoritesOk, EventsOk, LikesOk, CommentsOk, UserChecks;
    var json := JsonFor(env, e);
    var found := Select(db.users, CanSignIn(env, Lower(Json.GetString(json, "email", 5, 254).value),
                                            Json.GetString(json, "password", 1, 256).value));
    assert found[0] in found;
    var s := After(env, db, e).sessions[|db.sessions|];
    assert After(env, db, e).sessions == db.sessions + [s];
    forall k, u | SignedInWith(env, db, e, k, u) ensures u == s.userId {
      var v :| v in db.users && v.id == u && Some(v.email) == LoginName(env, e);
      assert v.email == found[0].email;
    }
  }

  lemma LogoutRevokesSession(env: Env, db: Db, e: Entry)
    requires IsLogout(env, db, e)
    ensures BearerToken(e.request.authorization).Some?
    ensures After(env, db, e).sessions ==
            Update(db.sessions, SessionOpen(BearerToken(e.request.authorization).value), Revoke(e.moment.now))
  {
    StepIsServe(env, db, e);
    hide Step, Recognise, BearerToken, Reached;
  }

  // ----- runs -----

  lemma RunAppend(env: Env, front: seq<Entry>, e: Entry)
    ensures Run(env, front + [e]) == After(env, Run(env, front), e)
    ensures forall i :: 0 <= i < |front| ==>
              Found(env, front + [e], i) == Found(env, front, i) && (front + [e])[i] == front[i]
    ensures Found(env, front + [e], |front|) == Run(env, front) && (front + [e])[|front|] == e
  {
    assert (front + [e])[..|front|] == front;
    assert forall i :: 0 <= i < |front| ==> (front + [e])[..i] == front[..i];
  }

  lemma OpenedInLonger(env: Env, front: seq<Entry>, e: Entry, i: nat, token: Uuid, user: Uuid)
    ensures OpenedAt(env, front + [e], i, token, user) <==>
            if i < |front| then OpenedAt(env, front, i, token, user)
            else i == |front| && SignedInWith(env, Run(env, front), e, token, user)
  {
    hide Run, SignedInWith;
    RunAppend(env, front, e);
  }

  lemma ClosedInLonger(env: Env, front: seq<Entry>, e: Entry, i: nat, token: Uuid)
    ensures ClosedAt(env, front + [e], i, token) <==>
            if i < |front| then ClosedAt(env, front, i, token)
            else i == |front| && SignedOutWith(env, Run(env, front), e, token)
  {
    hide Run, SignedOutWith;
    RunAppend(env, front, e);
  }

  /** Some login explains the row, and it is revoked exactly when some logout named its token. */
  ghost predicate Explained(env: Env, h: seq<Entry>, s: Session) {
    && (exists i: nat ::
          OpenedAt(env, h, i, s.token, s.userId) && s.expiresAt == ExpiryOf(h[i]) && s.createdAt == h[i].moment.now)
    && (s.revokedAt.Some? <==> EverClosed(env, h, s.token))
  }

  ghost predicate EverClosed(env: Env, h: seq<Entry>, token: Uuid) {
    exists j: nat :: ClosedAt(env, h, j, token)
  }

  /** The login of request i left a row that is still there. */
  ghost predicate Kept(env: Env, db: Db, e: Entry, token: Uuid, user: Uuid) {
    exists s :: s in db.sessions && s.token == token && s.userId == user && s.expiresAt == ExpiryOf(e)
  }

  ghost predicate KnownToken(db: Db, token: Uuid) {
    exists s :: s in db.sessions && s.token == token
  }

  lemma EverClosedInLonger(env: Env, front: seq<Entry>, e: Entry, token: Uuid)
    ensures EverClosed(env, front + [e], token) <==>
            EverClosed(env, front, token) || SignedOutWith(env, Run(env, front), e, token)
  {
    hide ClosedAt, SignedOutWith, Run;
    forall j: nat ensures ClosedAt(env, front + [e], j, token) <==>
                          if j < |front| then ClosedAt(env, front, j, token)
                          else j == |front| && SignedOutWith(env, Run(env, front), e, token) {
      ClosedInLonger(env, front, e, j, token);
    }
    forall j: nat | ClosedAt(env, front, j, token) ensures j < |front| {
      ClosedIsEarlier(env, front, j, token);
    }
    if SignedOutWith(env, Run(env, front), e, token) {
      assert ClosedAt(env, front + [e], |front|, token);
    }
  }

  lemma ClosedIsEarlier(env: Env, h: seq<Entry>, j: nat, token: Uuid)
    requires ClosedAt(env, h, j, token)
    ensures j < |h|
  {
  }

  /** An unchanged row stays explained by a longer run that does not close it. */
  lemma StaysExplained(env: Env, front: seq<Entry>, e: Entry, s: Session, t: Session)
    requires Explained(env, front, s)
    requires t.token == s.token && t.userId == s.userId && t.expiresAt == s.expiresAt && t.createdAt == s.createdAt
    requires t.revokedAt.Some? <==> s.revokedAt.Some? || SignedOutWith(env, Run(env, front), e, s.token)
    ensures Explained(env, front + [e], t)
  {
    hide SignedOutWith, EverClosed, Run, SignedInWith;
    EverClosedInLonger(env, front, e, s.token);
    var i: nat :| OpenedAt(env, front, i, s.token, s.userId) && s.expiresAt == ExpiryOf(front[i])
      && s.createdAt == front[i].moment.now;
    OpenedInLonger(env, front, e, i, s.token, s.userId);
    assert (front + [e])[i] == front[i];
  }

  lemma LogoutNeedsSession(env: Env, db: Db, e: Entry, token: Uuid)
    requires Valid(env, db) && SignedOutWith(env, db, e, token)
    ensures KnownToken(db, token)
  {
    StepIsServe(env, db, e);
    hide Step, Recognise, BearerToken, Reached, Valid;
    CallerMeaning(env, db, e.moment.authAt, e.request.authorization,
                  CallerOf(db, e.moment.authAt, e.request.authorization).user);
  }

  /** The three facts that together make the table an image of the history. */
  ghost predicate Faithful(env: Env, h: seq<Entry>, db: Db) {
    && (forall n :: 0 <= n < |db.sessions| ==> Explained(env, h, db.sessions[n]))
    && (forall i: nat, k, u :: OpenedAt(env, h, i, k, u) ==> Kept(env, db, h[i], k, u))
    && (forall k :: EverClosed(env, h, k) ==> KnownToken(db, k))
  }

  /** Every old row is there again, with at most its revocation changed. */
  ghost predicate Carries(before: seq<Session>, after: seq<Session>) {
    |before| <= |after| &&
    forall n :: 0 <= n < |before| ==> after[n] == before[n].(revokedAt := after[n].revokedAt)
  }

  lemma CarriedRows(env: Env, before: Db, after: Db, e: Entry, token: Uuid, user: Uuid)
    requires Carries(before.sessions, after.sessions)
    ensures Kept(env, before, e, token, user) ==> Kept(env, after, e, token, user)
    ensures KnownToken(before, token) ==> KnownToken(after, token)
  {
    if KnownToken(before, token) {
      var n :| 0 <= n < |before.sessions| && before.sessions[n].token == token;
      assert after.sessions[n] in after.sessions;
    }
    if Kept(env, before, e, token, user) {
      var s :| s in before.sessions && s.token == token && s.userId == user && s.expiresAt == ExpiryOf(e);
      var n :| 0 <= n < |before.sessions| && before.sessions[n] == s;
      assert after.sessions[n] in after.sessions;
    }
  }

  /** What a step does to old rows, and that a new row comes with a login. */
  lemma SessionStep(env: Env, db: Db, e: Entry)
    requires Valid(env, db)
    ensures var after := After(env, db, e);
            && Carries(db.sessions, after.sessions)
            && (forall n :: 0 <= n < |db.sessions| ==>
                  (after.sessions[n].revokedAt.Some? <==>
                     db.sessions[n].revokedAt.Some? || SignedOutWith(env, db, e, db.sessions[n].token)))
            && |after.sessions| == |db.sessions| + (if IsLogin(env, db, e) then 1 else 0)
  {
    hide Valid, IsLogin, IsLogout, After, RouteOf;
    LoginIsNotLogout(env, db, e);
    OnlyAcceptedRequestsChange(env, db, e);
    if IsLogin(env, db, e) {
      LoginAddsSession(env, db, e);
      assert forall n :: 0 <= n < |db.sessions| ==>
             After(env, db, e).sessions[n] == After(env, db, e).sessions[..|db.sessions|][n];
    } else if IsLogout(env, db, e) {
      LogoutRevokesSession(env, db, e);
    }
  }

  lemma LoginIsNotLogout(env: Env, db: Db, e: Entry)
    ensures !(IsLogin(env, db, e) && IsLogout(env, db, e))
  {
  }

  lemma KnownStep(env: Env, front: seq<Entry>, e: Entry, token: Uuid)
    requires Faithful(env, front, Run(env, front)) && EverClosed(env, front + [e], token)
    ensures KnownToken(Run(env, front + [e]), token)
  {
    var db := Run(env, front);
    RunAppend(env, front, e);
    RunIsValid(env, front);
    SessionStep(env, db, e);
    hide Run, Valid, Explained, Kept, KnownToken, EverClosed, SignedOutWith, After;
    EverClosedInLonger(env, front, e, token);
    if SignedOutWith(env, db, e, token) {
      LogoutNeedsSession(env, db, e, token);
    }
    CarriedRows(env, db, After(env, db, e), e, token, token);
  }

  lemma KeptStep(env: Env, front: seq<Entry>, e: Entry, i: nat, token: Uuid, user: Uuid)
    requires Faithful(env, front, Run(env, front)) && OpenedAt(env, front + [e], i, token, user)
    ensures Kept(env, Run(env, front + [e]), (front + [e])[i], token, user)
  {
    var db := Run(env, front);
    RunAppend(env, front, e);
    RunIsValid(env, front);
    SessionStep(env, db, e);
    hide Run, Valid, Explained, Kept, KnownToken, EverClosed, SignedInWith, After;
    OpenedInLonger(env, front, e, i, token, user);
    if i < |front| {
      assert Kept(env, db, front[i], token, user);
      CarriedRows(env, db, After(env, db, e), front[i], token, user);
    } else {
      LoginIsKept(env, db, e, token, user);
    }
  }

  lemma OldRowStaysExplained(env: Env, front: seq<Entry>, e: Entry, n: nat)
    requires n < |Run(env, front).sessions| <= |Run(env, front + [e]).sessions|
    requires Explained(env, front, Run(env, front).sessions[n])
    ensures Explained(env, front + [e], Run(env, front + [e]).sessions[n])
  {
    var db := Run(env, front);
    RunAppend(env, front, e);
    RunIsValid(env, front);
    SessionStep(env, db, e);
    hide Run, Valid, Explained, SignedOutWith, After, IsLogin;
    StaysExplained(env, front, e, db.sessions[n], Run(env, front + [e]).sessions[n]);
  }

  lemma SessionCount(env: Env, front: seq<Entry>, e: Entry)
    ensures |Run(env, front + [e]).sessions| ==
            |Run(env, front).sessions| + if IsLogin(env, Run(env, front), e) then 1 else 0
  {
    RunAppend(env, front, e);
    RunIsValid(env, front);
    SessionStep(env, Run(env, front), e);
    hide Run, Valid, IsLogin, SignedOutWith, Carries, After;
  }

  lemma ExplainedStep(env: Env, front: seq<Entry>, e: Entry, n: nat)
    requires Faithful(env, front, Run(env, front)) && n < |Run(env, front + [e]).sessions|
    ensures Explained(env, front + [e], Run(env, front + [e]).sessions[n])
  {
    hide Run, Explained, Faithful, IsLogin;
    SessionCount(env, front, e);
    if n < |Run(env, front).sessions| {
      FaithfulRow(env, front, n);
      OldRowStaysExplained(env, front, e, n);
    } else {
      NewSessionIsExplained(env, front, e);
    }
  }

  lemma FaithfulRow(env: Env, h: seq<Entry>, n: nat)
    requires Faithful(env, h, Run(env, h)) && n < |Run(env, h).sessions|
    ensures Explained(env, h, Run(env, h).sessions[n])
  {
  }

  lemma FaithfulStep(env: Env, front: seq<Entry>, e: Entry)
    requires Faithful(env, front, Run(env, front))
    ensures Faithful(env, front + [e], Run(env, front + [e]))
  {
    hide Run, Explained, Kept, KnownToken, EverClosed;
    var h := front + [e];
    forall k | EverClosed(env, h, k) ensures KnownToken(Run(env, h), k) {
      KnownStep(env, front, e, k);
    }
    forall i: nat, k, u | OpenedAt(env, h, i, k, u) ensures Kept(env, Run(env, h), h[i], k, u) {
      KeptStep(env, front, e, i, k, u);
    }
    forall n | 0 <= n < |Run(env, h).sessions| ensures Explained(env, h, Run(env, h).sessions[n]) {
      ExplainedStep(env, front, e, n);
    }
  }

  lemma LoginIsKept(env: Env, db: Db, e: Entry, token: Uuid, user: Uuid)
    requires Valid(env, db) && SignedInWith(env, db, e, token, user)
    ensures Kept(env, After(env, db, e), e, token, user)
  {
    LoginAddsSession(env, db, e);
    hide Valid, SignedInWith, After;
    assert After(env, db, e).sessions[|db.sessions|] in After(env, db, e).sessions;
  }

  lemma NewSessionIsExplained(env: Env, front: seq<Entry>, e: Entry)
    requires Faithful(env, front, Run(env, front)) && IsLogin(env, Run(env, front), e)
    ensures |Run(env, front + [e]).sessions| == |Run(env, front).sessions| + 1
    ensures Explained(env, front + [e], Run(env, front + [e]).sessions[|Run(env, front).sessions|])
  {
    var db, h := Run(env, front), front + [e];
    RunAppend(env, front, e);
    RunIsValid(env, front);
    LoginAddsSession(env, db, e);
    LoginIsNotLogout(env, db, e);
    hide Run, Valid, EverClosed, SignedInWith, After, IsLogin, IsLogout;
    var s := Run(env, h).sessions[|db.sessions|];
    OpenedInLonger(env, front, e, |front|, s.token, s.userId);
    EverClosedInLonger(env, front, e, s.token);
    assert !KnownToken(db, s.token);
  }

  lemma EmptyIsFaithful(env: Env)
    ensures Faithful(env, [], Run(env, []))
  {
  }

  lemma {:induction false} RunIsFaithful(env: Env, h: seq<Entry>)
    ensures Faithful(env, h, Run(env, h))
  {
    if h == [] {
      EmptyIsFaithful(env);
    } else {
      hide Faithful, Run;
      var front, e := h[..|h| - 1], h[|h| - 1];
      assert h == front + [e];
      RunIsFaithful(env, front);
      FaithfulStep(env, front, e);
    }
  }

  /** A confirmed owner with a live session is explained by a login and by no logout. */
  lemma AuthenticatedIsExplained(env: Env, h: seq<Entry>, token: Uuid, t: Time, u: User)
    requires Owns(Run(env, h), token, t, u)
    ensures exists i: nat :: OpenedAt(env, h, i, token, u.id) && t < ExpiryOf(h[i])
    ensures !EverClosed(env, h, token)
  {
    var db := Run(env, h);
    RunIsFaithful(env, h);
    hide Run, EverClosed, SignedInWith;
    var s :| s in db.sessions && s.userId == u.id && SessionLive(token, t)(s);
    var n :| 0 <= n < |db.sessions| && db.sessions[n] == s;
    assert Explained(env, h, db.sessions[n]);
  }

  lemma ExplainedIsAuthenticated(env: Env, h: seq<Entry>, token: Uuid, t: Time, i: nat, user: Uuid)
    requires OpenedAt(env, h, i, token, user) && t < ExpiryOf(h[i]) && !EverClosed(env, h, token)
    ensures exists u :: Owns(Run(env, h), token, t, u) && u.id == user
  {
    hide Run, EverClosed, SignedInWith, Valid, Explained;
    var db := Run(env, h);
    RunIsValid(env, h);
    RunIsFaithful(env, h);
    assert Kept(env, db, h[i], token, user);
    var s :| s in db.sessions && s.token == token && s.userId == user && s.expiresAt == ExpiryOf(h[i]);
    var n: nat :| n < |db.sessions| && db.sessions[n] == s;
    assert Explained(env, h, db.sessions[n]);
    UnclosedIsNotRevoked(env, h, s);
    SessionHasConfirmedUser(env, db, n);
    var u :| u in db.users && u.id == user && u.confirmedAt.Some?;
    assert SessionLive(token, t)(s);
    assert Owns(db, token, t, u);
  }

  lemma UnclosedIsNotRevoked(env: Env, h: seq<Entry>, s: Session)
    requires Explained(env, h, s) && !EverClosed(env, h, s.token)
    ensures s.revokedAt.None?
  {
  }

  lemma SessionHasConfirmedUser(env: Env, db: Db, n: nat)
    requires Valid(env, db) && n < |db.sessions|
    ensures ConfirmedIn(db.users, db.sessions[n].userId)
  {
    hide UsersOk, AccountsOk, FavoritesOk, EventsOk, LikesOk, CommentsOk;
  }

  /** After any run, a token authenticates as user u at time t exactly when some login returned
      it for u less than its time to live before t, and no logout with it was accepted. */
  lemma SessionValidityIsHistory(env: Env, h: seq<Entry>, authorization: Option<string>, token: Uuid, user: Uuid,
                                 t: Time)
    requires BearerToken(authorization) == Some(token)
    ensures (exists u :: CallerOf(Run(env, h), t, authorization) == SignedInAs(u) && u.id == user) <==>
            (exists i: nat :: OpenedAt(env, h, i, token, user) && t < ExpiryOf(h[i])) && !EverClosed(env, h, token)
  {
    RunIsValid(env, h);
    hide Run, EverClosed, SignedInWith, CallerOf, BearerToken, Owns, Valid;
    if u :| CallerOf(Run(env, h), t, authorization) == SignedInAs(u) && u.id == user {
      CallerMeaning(env, Run(env, h), t, authorization, u);
      AuthenticatedIsExplained(env, h, token, t, u);
    }
    if !EverClosed(env, h, token) {
      if i: nat :| OpenedAt(env, h, i, token, user) && t < ExpiryOf(h[i]) {
        ExplainedIsAuthenticated(env, h, token, t, i, user);
        var u :| Owns(Run(env, h), token, t, u) && u.id == user;
        CallerMeaning(env, Run(env, h), t, authorization, u);
      }
    }
  }

  /** A logout leaves every other token as it was. */
  lemma LogoutSparesOtherSessions(env: Env, db: Db, e: Entry, t: Time, authorization: Option<string>, u: User)
    requires Valid(env, db) && IsLogout(env, db, e)
    requires BearerToken(authorization).Some? && BearerToken(authorization) != BearerToken(e.request.authorization)
    ensures CallerOf(After(env, db, e), t, authorization) == SignedInAs(u) <==>
            CallerOf(db, t, authorization) == SignedInAs(u)
  {
    var token := BearerToken(authorization).value;
    var after := After(env, db, e);
    LoginIsNotLogout(env, db, e);
    OnlyAcceptedRequestsChange(env, db, e);
    LogoutRevokesSession(env, db, e);
    StepKeepsValid(env, db, e);
    assert after.users == db.users by {
      LogoutIsNotAccountChange(env, db, e);
    }
    hide After, Valid, CallerOf, BearerToken, IsLogout, IsLogin, IsRegistration, IsConfirmation, Owns;
    CallerMeaning(env, db, t, authorization, u);
    CallerMeaning(env, after, t, authorization, u);
    OtherTokensUntouched(db, after, token, t, u);
  }

  /** Owners of a token depend on the rows of that token alone. */
  lemma OtherTokensUntouched(db: Db, after: Db, token: Uuid, t: Time, u: User)
    requires after.users == db.users && |after.sessions| == |db.sessions|
    requires forall n :: 0 <= n < |db.sessions| ==> after.sessions[n].token == db.sessions[n].token
    requires forall n :: 0 <= n < |db.sessions| && db.sessions[n].token == token ==> after.sessions[n] == db.sessions[n]
    ensures Owns(after, token, t, u) <==> Owns(db, token, t, u)
  {
    if Owns(db, token, t, u) {
      var n :| 0 <= n < |db.sessions| && db.sessions[n].userId == u.id && SessionLive(token, t)(db.sessions[n]);
      assert after.sessions[n] in after.sessions;
    }
    if Owns(after, token, t, u) {
      var n :| 0 <= n < |after.sessions| && after.sessions[n].userId == u.id
        && SessionLive(token, t)(after.sessions[n]);
      assert db.sessions[n] in db.sessions;
    }
  }

  lemma LogoutIsNotAccountChange(env: Env, db: Db, e: Entry)
    requires IsLogout(env, db, e)
    ensures !IsRegistration(env, db, e) && !IsConfirmation(env, db, e)
  {
  }
}
