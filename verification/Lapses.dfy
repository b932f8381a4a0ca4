/** Registrations that nobody confirms in time: the account stays, unusable, and keeps its address. */
module Lapses {
  import opened Options
  import opened Text
  import opened Schema
  import opened Router
  import opened Sql
  import opened Service
  import opened Invariant
  import opened Effects
  import opened Sessions
  import opened Accounts
  import Json
  import Validation

  function Expiry(registration: Entry): Time {
    registration.moment.now + Hours(registration.settings.confirmationTtlHours)
  }

  function Address(env: Env, registration: Entry): string {
    Lower(TextField(env, registration, "email", 5, 254))
  }

  /** The clock of request j has reached the expiry of registration i, whose token was not accepted before. */
  ghost predicate Lapsed(env: Env, h: seq<Entry>, i: nat, j: nat) {
    && RegisteredAt(env, h, i)
    && j < |h| && Expiry(h[i]) <= h[j].moment.now
    && forall k: nat :: k < j ==> !AcceptedAt(env, h, k, h[i].moment.confirmationToken)
  }

  lemma LapsedTokenIsRefused(env: Env, h: seq<Entry>, i: nat, j: nat, k: nat)
    requires Clocked(h) && Lapsed(env, h, i, j)
    ensures !AcceptedAt(env, h, k, h[i].moment.confirmationToken)
  {
    hide Run, IsRegistration, ConfirmedWith, IsAlone, Stands;
    if j <= k < |h| {
      assert h[j].moment.now <= h[k].moment.now;
      var _ := AccountLifecycle(env, h, i);
    }
  }

  lemma LapsedIsRegistered(env: Env, h: seq<Entry>, i: nat, j: nat)
    requires Lapsed(env, h, i, j)
    ensures RegisteredAt(env, h, i)
  {
  }

  /** The token is not accepted at all, and the account stays without confirmation. */
  lemma LapsedIsNeverConfirmed(env: Env, h: seq<Entry>, i: nat, j: nat) returns (n: nat)
    requires Clocked(h) && Lapsed(env, h, i, j)
    ensures forall k: nat :: !AcceptedAt(env, h, k, h[i].moment.confirmationToken)
    ensures Stands(env, Run(env, h), h[i], n) && Run(env, h).users[n].confirmedAt.None?
  {
    hide Run, Lapsed, Clocked, RegisteredAt, AcceptedAt, IsAlone, AccountOf;
    LapsedIsRegistered(env, h, i, j);
    forall k: nat ensures !AcceptedAt(env, h, k, h[i].moment.confirmationToken) {
      LapsedTokenIsRefused(env, h, i, j, k);
    }
    n := AccountLifecycle(env, h, i);
  }

  lemma LoginFindsUser(env: Env, db: Db, e: Entry) returns (m: nat)
    requires Valid(env, db) && IsLogin(env, db, e)
    ensures m < |db.users| && db.users[m].confirmedAt.Some? && Some(db.users[m].email) == LoginName(env, e)
  {
    hide Valid, IsLogin, After, LoginName, SignedInWith, Matches;
    LoginAddsSession(env, db, e);
    var u :| u in db.users && u.confirmedAt.Some? && Some(u.email) == LoginName(env, e);
    m :| 0 <= m < |db.users| && db.users[m] == u;
  }

  lemma LoginUserInRun(env: Env, h: seq<Entry>, k: nat) returns (m: nat)
    requires k < |h| && IsLogin(env, Found(env, h, k), h[k])
    ensures m < |Run(env, h).users| && Run(env, h).users[m].confirmedAt.Some?
    ensures Some(Run(env, h).users[m].email) == LoginName(env, h[k])
  {
    hide Run, Valid, IsLogin, LoginName;
    RunIsValid(env, h[..k]);
    m := LoginFindsUser(env, Found(env, h, k), h[k]);
    assert h == h[..k] + h[k..];
    ConfirmationIsPermanent(env, h[..k], h[k..], m);
  }

  /** No login with the address is ever accepted, however long the run goes on. */
  lemma LapsedNeverSignsIn(env: Env, h: seq<Entry>, i: nat, j: nat, k: nat)
    requires Clocked(h) && Lapsed(env, h, i, j)
    requires k < |h| && LoginName(env, h[k]) == Some(Address(env, h[i]))
    ensures !IsLogin(env, Found(env, h, k), h[k])
  {
    hide Run, Valid, IsLogin, LoginName, Lapsed;
    if IsLogin(env, Found(env, h, k), h[k]) {
      var n := LapsedIsNeverConfirmed(env, h, i, j);
      var m := LoginUserInRun(env, h, k);
      RunIsValid(env, h);
      SameAddressSameUser(env, Run(env, h), m, n);
    }
  }

  lemma SameAddressSameUser(env: Env, db: Db, m: nat, n: nat)
    requires Valid(env, db) && m < |db.users| && n < |db.users| && db.users[m].email == db.users[n].email
    ensures m == n
  {
    hide UserChecks, AccountsOk, SessionsOk, FavoritesOk, EventsOk, LikesOk, CommentsOk;
  }

  /** Nor can the address be registered again, confirmed or not: a complete request for it is refused
      with 409, and the other refusals keep their precedence. */
  lemma RegisteredAddressIsTaken(env: Env, h: seq<Entry>, i: nat, e: Entry)
    requires RegisteredAt(env, h, i) && Reached(env, e) && RouteOf(e) == Register
    requires LoginName(env, e) == Some(Address(env, h[i]))
    ensures var password := Json.GetString(JsonFor(env, e), "password", 12, 256);
            var displayName := Json.GetString(JsonFor(env, e), "display_name", 1, 100);
            ReplyTo(env, Run(env, h), e) ==
            if password.None? || displayName.None? then Response(400, Error("validation_error"))
            else if !IsUtf8(password.value) || !IsUtf8(displayName.value) then Response(500, Error("database_error"))
            else Response(409, Error("email_already_registered"))
  {
    hide Run, Step, Recognise, IsRegistration, JsonFor, Reached, IsUtf8, Json.GetString, Validation.Email,
         Validation.IsEmail, Lower;
    StepIsServe(env, Run(env, h), e);
    RegisteredTextIsUtf8(env, Found(env, h, i), h[i]);
    Validation.LowerKeepsEmail(TextField(env, h[i], "email", 5, 254), TextField(env, e, "email", 5, 254));
    var n := RegistrationStands(env, h, i);
    assert HasEmail(Address(env, h[i]))(Run(env, h).users[n]);
  }
}
