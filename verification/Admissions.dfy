/** Registration, confirmation, sign-in and sign-out: which reply each gets, and which rows it leaves. */
module Admissions {
  import opened Options
  import opened Text
  import opened Uuids
  import opened Tables
  import opened Schema
  import opened Router
  import opened Sql
  import opened Service
  import opened Effects
  import opened Accounts
  import opened Answers
  import Invariant
  import Json
  import Validation

  // ----- POST /auth/register -----

  /** A key that the new account would need belongs to another one. */
  ghost predicate Clashes(db: Db, m: Moment, address: string) {
    || (exists u :: u in db.users && (u.email == address || u.id == m.userId))
    || (exists t :: t in db.tokens && t.token == m.confirmationToken)
  }

  lemma ClashesAreFound(db: Db, m: Moment, address: string)
    ensures Clashes(db, m, address) <==>
              || Has(db.users, HasEmail(address)) || Has(db.users, HasId(m.userId))
              || Has(db.tokens, HasToken(m.confirmationToken))
  {
  }

  lemma RegisterIsAnswered(env: Env, db: Db, e: Entry)
    requires Reached(env, e) && RouteOf(e) == Register
    ensures var json := JsonFor(env, e);
            var email, password := Json.GetString(json, "email", 5, 254), Json.GetString(json, "password", 12, 256);
            var displayName := Json.GetString(json, "display_name", 1, 100);
            ReplyTo(env, db, e) ==
            if email.None? || password.None? || displayName.None? || !Validation.IsEmail(email.value) then
              Response(400, Error("validation_error"))
            else if !IsUtf8(Lower(email.value)) || !IsUtf8(password.value) || !IsUtf8(displayName.value)
                    || env.lower(Lower(email.value)) != Lower(email.value) then
              Response(500, Error("database_error"))
            else if Clashes(db, e.moment, Lower(email.value)) then Response(409, Error("email_already_registered"))
            else
              Response(201, Registered(e.moment.now + 3_600_000_000 * e.settings.confirmationTtlHours,
                                       if e.settings.exposeToken then Some(e.moment.confirmationToken) else None))
  {
    hide Step, Recognise, Reached, JsonFor, IsUtf8, Json.GetString, Validation.IsEmail, Validation.Email, Lower,
         Clashes, Has;
    StepIsServe(env, db, e);
    ClashesAreFound(db, e.moment, Lower(TextField(env, e, "email", 5, 254)));
  }

  /** One unconfirmed user and its token are added. The reply tells the expiry of that token, and the
      token itself exactly when the settings expose it. */
  lemma RegistrationIsStored(env: Env, db: Db, e: Entry)
    requires IsRegistration(env, db, e)
    ensures var (after, reply, m) := (After(env, db, e), ReplyTo(env, db, e), e.moment);
            && reply.payload.Registered?
            && var user := User(m.userId, Lower(TextField(env, e, "email", 5, 254)),
                                TextField(env, e, "display_name", 1, 100),
                                env.crypt(TextField(env, e, "password", 12, 256), m.salt), None, m.now, m.now);
            && var row := Token(m.confirmationToken, user.id, reply.payload.confirmationExpiresAt, None, m.now);
            && after.users == db.users + [user] && after.tokens == db.tokens + [row]
            && row.expiresAt == m.now + 3_600_000_000 * e.settings.confirmationTtlHours
            && (reply.payload.confirmationToken.Some? <==> e.settings.exposeToken)
            && (reply.payload.confirmationToken.Some? ==> reply.payload.confirmationToken.value == row.token)
  {
    hide Step, Recognise, Reached, JsonFor, IsUtf8, Json.GetString, Validation.Email, Lower, Has;
    StepIsServe(env, db, e);
  }

  // ----- POST /auth/confirm -----

  /** The text converts to this token, which waits for its confirmation. */
  predicate Waits(t: Token, text: string, now: Time) {
    Parse(text) == Some(t.token) && t.consumedAt.None? && now < t.expiresAt
  }

  /** A waiting token is the only one that the statement selects. */
  lemma WaitingTokenIsLive(env: Env, db: Db, now: Time, text: string)
    requires Valid(env, db)
    ensures (exists t :: t in db.tokens && Waits(t, text, now)) <==>
              Parse(text).Some? && |Select(db.tokens, TokenLive(Parse(text).value, now))| == 1
    ensures Parse(text).Some? ==> forall n :: 0 <= n < |db.tokens| && Waits(db.tokens[n], text, now) ==>
              Select(db.tokens, TokenLive(Parse(text).value, now)) == [db.tokens[n]]
  {
    hide UsersOk, SessionsOk, FavoritesOk, EventsOk, LikesOk, CommentsOk, Parse;
    if Parse(text).Some? {
      var where := TokenLive(Parse(text).value, now);
      SelectUnique(db.tokens, where);
      if |Select(db.tokens, where)| == 1 {
        assert Select(db.tokens, where)[0] in Select(db.tokens, where);
        assert Waits(Select(db.tokens, where)[0], text, now);
      }
    }
  }

  /** A token is accepted exactly while it waits. */
  lemma ConfirmIsAnswered(env: Env, db: Db, e: Entry)
    requires Valid(env, db) && Reached(env, e) && RouteOf(e) == Confirm
    ensures var text := Json.GetString(JsonFor(env, e), "token", 36, 36);
            ReplyTo(env, db, e) ==
            if text.None? then Response(400, Error("validation_error"))
            else if exists t :: t in db.tokens && Waits(t, text.value, e.moment.now) then Response(200, Message)
            else Response(400, Error("invalid_confirmation_token"))
  {
    hide Step, Recognise, Reached, JsonFor, Json.GetString, Valid, Parse, Select, Update, Waits;
    StepIsServe(env, db, e);
    WaitingTokenIsLive(env, db, e.moment.now, TextField(env, e, "token", 36, 36));
  }

  /** Confirmation marks one token and its one user, and touches nobody else. */
  lemma ConfirmationTakesEffect(env: Env, db: Db, e: Entry) returns (n: nat)
    requires Valid(env, db) && IsConfirmation(env, db, e)
    ensures n < |db.tokens| == |db.users| && db.users[n].id == db.tokens[n].userId
    ensures Waits(db.tokens[n], TextField(env, e, "token", 36, 36), e.moment.now)
    ensures After(env, db, e).tokens == db.tokens[n := db.tokens[n].(consumedAt := Some(e.moment.now))]
    ensures After(env, db, e).users ==
            db.users[n := db.users[n].(confirmedAt := Some(e.moment.now), updatedAt := e.moment.now)]
  {
    hide Step, Recognise, Reached, JsonFor, Json.GetString, Valid, Parse, ConfirmWith, Select, TokenLive, After;
    ConfirmationConsumes(env, db, e);
    n := PresentedRow(env, db, e);
    ConfirmedPair(env, db, e.moment.now, PresentedToken(env, e).value, n);
  }

  lemma PresentedRow(env: Env, db: Db, e: Entry) returns (n: nat)
    requires Valid(env, db) && IsConfirmation(env, db, e) && PresentedToken(env, e).Some?
    requires |Select(db.tokens, TokenLive(PresentedToken(env, e).value, e.moment.now))| == 1
    ensures n < |db.tokens| && Waits(db.tokens[n], TextField(env, e, "token", 36, 36), e.moment.now)
    ensures TokenLive(PresentedToken(env, e).value, e.moment.now)(db.tokens[n])
  {
    hide IsConfirmation, JsonFor, Json.GetString, Valid, Parse;
    var live := Select(db.tokens, TokenLive(PresentedToken(env, e).value, e.moment.now));
    assert live[0] in live;
    n :| 0 <= n < |db.tokens| && db.tokens[n] == live[0];
  }

  lemma ConfirmedPair(env: Env, db: Db, now: Time, token: Uuid, n: nat)
    requires Valid(env, db) && n < |db.tokens| && TokenLive(token, now)(db.tokens[n])
    ensures |db.tokens| == |db.users| && db.users[n].id == db.tokens[n].userId
    ensures ConfirmWith(db, now, token).db.tokens == db.tokens[n := db.tokens[n].(consumedAt := Some(now))]
    ensures ConfirmWith(db, now, token).db.users ==
            db.users[n := db.users[n].(confirmedAt := Some(now), updatedAt := now)]
  {
    hide UserChecks, SessionsOk, FavoritesOk, EventsOk, LikesOk, CommentsOk;
    SelectUnique(db.tokens, TokenLive(token, now));
    hide Select;
  }

  /** Row n waits for its token exactly until its expiry, and no other row waits for that text. */
  lemma RegisteredRowWaits(env: Env, db: Db, registration: Entry, n: nat, text: string, now: Time)
    requires Valid(env, db) && Stands(env, db, registration, n) && db.users[n].confirmedAt.None?
    requires Parse(text) == Some(registration.moment.confirmationToken)
    ensures (exists t :: t in db.tokens && Waits(t, text, now)) <==>
              now < registration.moment.now + 3_600_000_000 * registration.settings.confirmationTtlHours
    ensures forall m :: 0 <= m < |db.tokens| && Waits(db.tokens[m], text, now) ==> m == n
  {
    hide UserChecks, UsersOk, SessionsOk, FavoritesOk, EventsOk, LikesOk, CommentsOk, Parse, Lower, TextField;
    if now < registration.moment.now + Hours(registration.settings.confirmationTtlHours) {
      assert db.tokens[n] in db.tokens && Waits(db.tokens[n], text, now);
    }
  }

  lemma PresentedText(env: Env, e: Entry)
    requires PresentedToken(env, e).Some?
    ensures Json.GetString(JsonFor(env, e), "token", 36, 36) == Some(TextField(env, e, "token", 36, 36))
    ensures Parse(TextField(env, e, "token", 36, 36)) == PresentedToken(env, e)
  {
    hide Json.GetString, JsonFor, Parse;
  }

  /** One request later: the registered row is confirmed now, or exactly as before. */
  lemma ConfirmationOfRow(env: Env, db: Db, registration: Entry, n: nat, e: Entry)
    requires Valid(env, db) && Stands(env, db, registration, n) && db.users[n].confirmedAt.None?
    requires Reached(env, e) && RouteOf(e) == Confirm
    requires PresentedToken(env, e) == Some(registration.moment.confirmationToken)
    ensures var inTime := e.moment.now < registration.moment.now
                                         + 3_600_000_000 * registration.settings.confirmationTtlHours;
            && Stands(env, After(env, db, e), registration, n)
            && ReplyTo(env, db, e) ==
                 (if inTime then Response(200, Message) else Response(400, Error("invalid_confirmation_token")))
            && After(env, db, e).users[n].confirmedAt == if inTime then Some(e.moment.now) else None
  {
    hide ReplyTo, After, Recognise, Reached, PresentedToken, TextField, Valid, Waits, Lower, JsonFor, Json.GetString;
    PresentedText(env, e);
    RegisteredRowWaits(env, db, registration, n, TextField(env, e, "token", 36, 36), e.moment.now);
    ConfirmIsAnswered(env, db, e);
    if ReplyTo(env, db, e).status == 200 {
      var m := ConfirmationTakesEffect(env, db, e);
      assert m == n;
    } else {
      OnlyAcceptedRequestsChange(env, db, e);
    }
  }

  /** Over any run: whoever presents the token of a registration that was not used yet is confirmed, at
      that instant, if and only if the hours of the registration have not passed. */
  lemma ConfirmationInTime(env: Env, h: seq<Entry>, i: nat, e: Entry) returns (n: nat)
    requires RegisteredAt(env, h, i) && Reached(env, e) && RouteOf(e) == Confirm
    requires PresentedToken(env, e) == Some(h[i].moment.confirmationToken)
    requires forall j: nat :: !AcceptedAt(env, h, j, h[i].moment.confirmationToken)
    ensures var inTime := e.moment.now < h[i].moment.now + 3_600_000_000 * h[i].settings.confirmationTtlHours;
            && Stands(env, Run(env, h), h[i], n) && Stands(env, After(env, Run(env, h), e), h[i], n)
            && ReplyTo(env, Run(env, h), e) ==
                 (if inTime then Response(200, Message) else Response(400, Error("invalid_confirmation_token")))
            && After(env, Run(env, h), e).users[n].confirmedAt == if inTime then Some(e.moment.now) else None
  {
    hide Run, After, ReplyTo, Reached, Recognise, IsRegistration, AcceptedAt, IsAlone, Valid, AccountOf, PresentedToken;
    Invariant.RunIsValid(env, h);
    n := AccountLifecycle(env, h, i);
    ConfirmationOfRow(env, Run(env, h), h[i], n, e);
  }

  // ----- POST /auth/login -----

  /** The address and the password of a confirmed user. */
  predicate Matched(env: Env, u: User, address: string, password: string) {
    u.email == address && u.confirmedAt.Some? && u.passwordHash == env.crypt(password, u.passwordHash)
  }

  lemma MatchedIsSelected(env: Env, db: Db, address: string, password: string)
    requires Valid(env, db)
    ensures (exists u :: u in db.users && Matched(env, u, address, password)) <==>
              |Select(db.users, CanSignIn(env, address, password))| == 1
    ensures |Select(db.users, CanSignIn(env, address, password))| <= 1
  {
    hide UserChecks, AccountsOk, SessionsOk, FavoritesOk, EventsOk, LikesOk, CommentsOk;
    var where := CanSignIn(env, address, password);
    SelectUnique(db.users, where);
    if |Select(db.users, where)| == 1 {
      assert Select(db.users, where)[0] in Select(db.users, where);
    }
  }

  lemma LoginIsAnswered(env: Env, db: Db, e: Entry)
    requires Valid(env, db) && Reached(env, e) && RouteOf(e) == Login
    ensures var json := JsonFor(env, e);
            var email, password := Json.GetString(json, "email", 5, 254), Json.GetString(json, "password", 1, 256);
            ReplyTo(env, db, e) ==
            if email.None? || password.None? || !Validation.IsEmail(email.value) then
              Response(400, Error("validation_error"))
            else if !IsUtf8(Lower(email.value)) || !IsUtf8(password.value) then Response(500, Error("database_error"))
            else if forall u :: u in db.users ==> !Matched(env, u, Lower(email.value), password.value) then
              Response(401, Error("invalid_credentials"))
            else if exists s :: s in db.sessions && s.token == e.moment.sessionToken(0) then
              Response(500, Error("database_error"))
            else
              Response(200, SignedIn(e.moment.sessionToken(0),
                                     e.moment.now + 3_600_000_000 * e.settings.tokenTtlHours))
  {
    hide Step, Recognise, Reached, JsonFor, IsUtf8, Json.GetString, Validation.IsEmail, Validation.Email, Lower, Valid,
         Select, CanSignIn, Matched;
    StepIsServe(env, db, e);
    MatchedIsSelected(env, db, Lower(TextField(env, e, "email", 5, 254)), TextField(env, e, "password", 1, 256));
  }

  /** A login adds the session that its reply announces, open, for the user it matched. */
  lemma SessionIsOpened(env: Env, db: Db, e: Entry) returns (u: User)
    requires Valid(env, db) && IsLogin(env, db, e)
    ensures u in db.users
    ensures Matched(env, u, Lower(TextField(env, e, "email", 5, 254)), TextField(env, e, "password", 1, 256))
    ensures var reply := ReplyTo(env, db, e).payload;
            && reply.SignedIn? && reply.expiresAt == e.moment.now + 3_600_000_000 * e.settings.tokenTtlHours
            && After(env, db, e).sessions ==
                 db.sessions + [Session(reply.token, u.id, reply.expiresAt, None, e.moment.now, e.moment.now)]
  {
    hide Step, Recognise, Reached, JsonFor, IsUtf8, Json.GetString, Validation.Email, Lower, Valid, CanSignIn;
    StepIsServe(env, db, e);
    var address, password := Lower(TextField(env, e, "email", 5, 254)), TextField(env, e, "password", 1, 256);
    var found := Select(db.users, CanSignIn(env, address, password));
    assert found[0] in found;
    u := found[0];
    SelectedIsMatched(env, u, address, password);
  }

  lemma SelectedIsMatched(env: Env, u: User, address: string, password: string)
    ensures CanSignIn(env, address, password)(u) <==> Matched(env, u, address, password)
  {
  }

  // ----- DELETE /auth/session -----

  /** Signing out needs a live session; it closes the session of the header, now, and no other. */
  lemma LogoutIsAnswered(env: Env, db: Db, e: Entry)
    requires Valid(env, db) && Reached(env, e) && RouteOf(e) == CloseSession
    ensures if forall u :: !SignedInBy(db, e.moment.authAt, e.request.authorization, u)
            then ReplyTo(env, db, e) == Response(401, Error("unauthorized")) && After(env, db, e) == db
            else
              && ReplyTo(env, db, e) == Response(204, Nothing)
              && var text, after := e.request.authorization.value[7..], After(env, db, e).sessions;
              && |after| == |db.sessions|
              && forall i :: 0 <= i < |after| ==>
                   after[i] == if Parse(text) == Some(db.sessions[i].token) && db.sessions[i].revokedAt.None?
                               then db.sessions[i].(revokedAt := Some(e.moment.now)) else db.sessions[i]
  {
    hide Step, Recognise, Reached, JsonFor, CallerOf, Valid, Parse, ConfirmedIn;
    StepIsServe(env, db, e);
    var caller := CallerOf(db, e.moment.authAt, e.request.authorization);
    CallerIsSignedIn(env, db, e.moment.authAt, e.request.authorization);
    if caller.SignedInAs? {
      assert SignedInBy(db, e.moment.authAt, e.request.authorization, caller.user);
    }
  }
}
