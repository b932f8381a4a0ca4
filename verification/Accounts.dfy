/** Accounts over whole runs: registration, one confirmation at most, and what sign-in needs. */
module Accounts {
  import opened Options
  import opened Text
  import opened Uuids
  import opened Tables
  import opened Schema
  import opened Router
  import opened Sql
  import opened Service
  import opened Invariant
  import opened Effects
  import opened Sessions
  import Json

  function TextField(env: Env, e: Entry, key: string, minimum: nat, maximum: nat): string {
    TextOr(Json.GetString(JsonFor(env, e), key, minimum, maximum))
  }

  /** The account that a registration request asks for. */
  ghost predicate AccountOf(env: Env, e: Entry, u: User, t: Token) {
    && u.id == e.moment.userId
    && u.email == Lower(TextField(env, e, "email", 5, 254))
    && u.displayName == TextField(env, e, "display_name", 1, 100)
    && u.passwordHash == env.crypt(TextField(env, e, "password", 12, 256), e.moment.salt)
    && u.createdAt == e.moment.now
    && t.token == e.moment.confirmationToken && t.userId == u.id
    && t.expiresAt == e.moment.now + Hours(e.settings.confirmationTtlHours)
  }

  /** The token that a confirmation request presents. */
  function PresentedToken(env: Env, e: Entry): Option<Uuid> {
    match Json.GetString(JsonFor(env, e), "token", TEXT_LENGTH, TEXT_LENGTH)
    case None => None
    case Some(text) => Parse(text)
  }

  predicate ConfirmedWith(env: Env, db: Db, e: Entry, token: Uuid) {
    IsConfirmation(env, db, e) && PresentedToken(env, e) == Some(token)
  }

  ghost predicate RegisteredAt(env: Env, h: seq<Entry>, i: nat) {
    i < |h| && IsRegistration(env, Found(env, h, i), h[i])
  }

  ghost predicate AcceptedAt(env: Env, h: seq<Entry>, j: nat, token: Uuid) {
    j < |h| && ConfirmedWith(env, Found(env, h, j), h[j], token)
  }

  // ----- one step -----

  lemma RegistrationAddsAccount(env: Env, db: Db, e: Entry)
    requires Valid(env, db) && IsRegistration(env, db, e)
    ensures var after := After(env, db, e);
            && |after.users| == |db.users| + 1 && |after.tokens| == |db.tokens| + 1
            && after.users[..|db.users|] == db.users && after.tokens[..|db.tokens|] == db.tokens
            && AccountOf(env, e, after.users[|db.users|], after.tokens[|db.tokens|])
            && after.tokens[|db.tokens|].consumedAt.None?
            && (forall t :: t in db.tokens ==> t.token != e.moment.confirmationToken)
  {
    StepIsServe(env, db, e);
    hide Step, Recognise, IsUtf8, Validation.Email, Lower, Json.GetString, JsonFor, Reached, Valid;
    forall t | t in db.tokens ensures t.token != e.moment.confirmationToken {
      assert t.token == e.moment.confirmationToken ==> HasToken(e.moment.confirmationToken)(t);
    }
  }

  /** Row by row, what an accepted confirmation does. */
  lemma ConfirmationConsumes(env: Env, db: Db, e: Entry)
    requires Valid(env, db) && IsConfirmation(env, db, e)
    ensures PresentedToken(env, e).Some?
    ensures |Select(db.tokens, TokenLive(PresentedToken(env, e).value, e.moment.now))| == 1
    ensures After(env, db, e) == ConfirmWith(db, e.moment.now, PresentedToken(env, e).value).db
  {
    StepIsServe(env, db, e);
    hide Step, Recognise, Json.GetString, JsonFor, Reached, Valid, Parse, Select, Update;
  }

  /** Old rows stay, and only the presented token can be consumed, once, at the time of the request. */
  ghost predicate AccountsCarried(env: Env, db: Db, after: Db, e: Entry, n: nat) {
    && n < |db.users| == |db.tokens| && |db.users| <= |after.users| && |db.tokens| <= |after.tokens|
    && after.users[n] == db.users[n].(confirmedAt := after.users[n].confirmedAt, updatedAt := after.users[n].updatedAt)
    && after.tokens[n] == db.tokens[n].(consumedAt := after.tokens[n].consumedAt)
    && after.tokens[n].consumedAt ==
         (if ConfirmedWith(env, db, e, db.tokens[n].token) then Some(e.moment.now) else db.tokens[n].consumedAt)
    && (ConfirmedWith(env, db, e, db.tokens[n].token) ==> db.tokens[n].consumedAt.None?)
  }

  lemma AccountStep(env: Env, db: Db, e: Entry, n: nat)
    requires Valid(env, db) && n < |db.users|
    ensures AccountsCarried(env, db, After(env, db, e), e, n)
  {
    OnlyAcceptedRequestsChange(env, db, e);
    hide After, IsRegistration, IsConfirmation, PresentedToken, FavoritesOk, EventsOk, LikesOk, CommentsOk,
         SessionsOk, UserChecks;
    if IsRegistration(env, db, e) {
      RegistrationIsNotConfirmation(env, db, e);
      RegistrationAddsAccount(env, db, e);
      assert After(env, db, e).users[..|db.users|][n] == db.users[n];
      assert After(env, db, e).tokens[..|db.tokens|][n] == db.tokens[n];
    } else if IsConfirmation(env, db, e) {
      ConfirmationConsumes(env, db, e);
      ConfirmedRow(env, db, e, PresentedToken(env, e).value, n);
    }
  }

  lemma RegistrationIsNotConfirmation(env: Env, db: Db, e: Entry)
    requires IsRegistration(env, db, e)
    ensures !IsConfirmation(env, db, e)
  {
  }

  lemma ConfirmedRow(env: Env, db: Db, e: Entry, token: Uuid, n: nat)
    requires UsersOk(env, db.users) && AccountsOk(db.users, db.tokens) && n < |db.users|
    requires |Select(db.tokens, TokenLive(token, e.moment.now))| == 1
    ensures var after := ConfirmWith(db, e.moment.now, token).db;
            && |after.users| == |db.users| && |after.tokens| == |db.tokens|
            && after.users[n] == db.users[n].(confirmedAt := after.users[n].confirmedAt,
                                              updatedAt := after.users[n].updatedAt)
            && after.tokens[n] == db.tokens[n].(consumedAt := after.tokens[n].consumedAt)
            && after.tokens[n].consumedAt ==
               (if db.tokens[n].token == token then Some(e.moment.now) else db.tokens[n].consumedAt)
            && (db.tokens[n].token == token ==> db.tokens[n].consumedAt.None?)
  {
    var live := Select(db.tokens, TokenLive(token, e.moment.now));
    assert live[0] in live;
    var k :| 0 <= k < |db.tokens| && db.tokens[k] == live[0];
    assert db.tokens[n].token == token ==> n == k;
    ConfirmLengths(db, e.moment.now, token);
    ConfirmedAt(env, db, e.moment.now, token, n);
    hide ConfirmWith, UsersOk;
  }

  // ----- runs -----

  lemma RegisteredInLonger(env: Env, front: seq<Entry>, e: Entry, i: nat)
    ensures RegisteredAt(env, front + [e], i) <==>
            if i < |front| then RegisteredAt(env, front, i) else i == |front| && IsRegistration(env, Run(env, front), e)
  {
    hide Run, IsRegistration;
    RunAppend(env, front, e);
  }

  lemma AcceptedInLonger(env: Env, front: seq<Entry>, e: Entry, j: nat, token: Uuid)
    ensures AcceptedAt(env, front + [e], j, token) <==>
            if j < |front| then AcceptedAt(env, front, j, token)
            else j == |front| && ConfirmedWith(env, Run(env, front), e, token)
  {
    hide Run, ConfirmedWith;
    RunAppend(env, front, e);
  }

  /** Some registration made the account, and a consumed token was accepted at that instant. */
  ghost predicate AccountExplained(env: Env, h: seq<Entry>, u: User, t: Token) {
    && (exists i: nat :: RegisteredAt(env, h, i) && AccountOf(env, h[i], u, t))
    && (t.consumedAt.Some? ==> exists j: nat :: AcceptedAt(env, h, j, t.token))
  }

  ghost predicate AccountKept(env: Env, db: Db, e: Entry) {
    exists n :: 0 <= n < |db.users| && n < |db.tokens| && AccountOf(env, e, db.users[n], db.tokens[n])
  }

  ghost predicate ConsumptionKept(db: Db, token: Uuid, at: Time) {
    exists n :: 0 <= n < |db.tokens| && db.tokens[n].token == token && db.tokens[n].consumedAt == Some(at)
  }

  ghost predicate AccountsFaithful(env: Env, h: seq<Entry>, db: Db) {
    && |db.users| == |db.tokens|
    && (forall n :: 0 <= n < |db.users| ==> AccountExplained(env, h, db.users[n], db.tokens[n]))
    && (forall i: nat :: RegisteredAt(env, h, i) ==> AccountKept(env, db, h[i]))
    && (forall j: nat, k :: AcceptedAt(env, h, j, k) ==> ConsumptionKept(db, k, h[j].moment.now))
  }

  lemma OldAccountExplained(env: Env, front: seq<Entry>, e: Entry, u: User, t: Token, v: User, w: Token)
    requires AccountExplained(env, front, u, t)
    requires v == u.(confirmedAt := v.confirmedAt, updatedAt := v.updatedAt) && w == t.(consumedAt := w.consumedAt)
    requires w.consumedAt.Some? ==> t.consumedAt.Some? || ConfirmedWith(env, Run(env, front), e, t.token)
    ensures AccountExplained(env, front + [e], v, w)
  {
    hide Run, IsRegistration, ConfirmedWith;
    var i: nat :| RegisteredAt(env, front, i) && AccountOf(env, front[i], u, t);
    RegisteredInLonger(env, front, e, i);
    assert (front + [e])[i] == front[i];
    if w.consumedAt.Some? {
      if t.consumedAt.Some? {
        var j: nat :| AcceptedAt(env, front, j, t.token);
        AcceptedInLonger(env, front, e, j, t.token);
      } else {
        AcceptedInLonger(env, front, e, |front|, t.token);
      }
    }
  }

  lemma NewAccountExplained(env: Env, front: seq<Entry>, e: Entry)
    requires IsRegistration(env, Run(env, front), e)
    ensures |Run(env, front + [e]).users| == |Run(env, front + [e]).tokens| == |Run(env, front).users| + 1
    ensures AccountOf(env, e, Run(env, front + [e]).users[|Run(env, front).users|],
                      Run(env, front + [e]).tokens[|Run(env, front).users|])
    ensures AccountExplained(env, front + [e], Run(env, front + [e]).users[|Run(env, front).users|],
                             Run(env, front + [e]).tokens[|Run(env, front).users|])
  {
    RunAppend(env, front, e);
    RunIsValid(env, front);
    RegistrationAddsAccount(env, Run(env, front), e);
    assert |Run(env, front).users| == |Run(env, front).tokens|;
    hide Run, Valid, IsRegistration, AccountOf;
    RegisteredInLonger(env, front, e, |front|);
    assert (front + [e])[|front|] == e;
  }

  lemma AccountCount(env: Env, front: seq<Entry>, e: Entry)
    ensures |Run(env, front).users| == |Run(env, front).tokens|
    ensures |Run(env, front + [e]).users| ==
            |Run(env, front).users| + if IsRegistration(env, Run(env, front), e) then 1 else 0
    ensures |Run(env, front + [e]).tokens| == |Run(env, front + [e]).users|
  {
    var db := Run(env, front);
    RunAppend(env, front, e);
    RunIsValid(env, front);
    RunIsValid(env, front + [e]);
    OnlyAcceptedRequestsChange(env, db, e);
    hide Run, After, IsRegistration, IsConfirmation, UsersOk, FavoritesOk, EventsOk, LikesOk, CommentsOk, SessionsOk;
    if IsRegistration(env, db, e) {
      RegistrationAddsAccount(env, db, e);
    } else if IsConfirmation(env, db, e) {
      ConfirmationConsumes(env, db, e);
      ConfirmLengths(db, e.moment.now, PresentedToken(env, e).value);
    }
  }

  lemma CarriedInRun(env: Env, front: seq<Entry>, e: Entry, n: nat)
    requires n < |Run(env, front).users|
    ensures AccountsCarried(env, Run(env, front), Run(env, front + [e]), e, n)
  {
    RunAppend(env, front, e);
    RunIsValid(env, front);
    AccountStep(env, Run(env, front), e, n);
    hide Run, Valid, AccountsCarried, After;
  }

  lemma OldAccountInRun(env: Env, front: seq<Entry>, e: Entry, n: nat)
    requires n < |Run(env, front).users| && n < |Run(env, front).tokens|
    requires n < |Run(env, front + [e]).users| && n < |Run(env, front + [e]).tokens|
    requires AccountExplained(env, front, Run(env, front).users[n], Run(env, front).tokens[n])
    ensures AccountExplained(env, front + [e], Run(env, front + [e]).users[n], Run(env, front + [e]).tokens[n])
  {
    CarriedInRun(env, front, e, n);
    hide Run, ConfirmedWith, AccountExplained;
    OldAccountExplained(env, front, e, Run(env, front).users[n], Run(env, front).tokens[n],
                        Run(env, front + [e]).users[n], Run(env, front + [e]).tokens[n]);
  }

  lemma ExplainedAccountStep(env: Env, front: seq<Entry>, e: Entry, n: nat)
    requires AccountsFaithful(env, front, Run(env, front))
    requires n < |Run(env, front + [e]).users| == |Run(env, front + [e]).tokens|
    ensures AccountExplained(env, front + [e], Run(env, front + [e]).users[n], Run(env, front + [e]).tokens[n])
  {
    hide Run, IsRegistration, AccountKept, ConsumptionKept, RegisteredAt, AcceptedAt, AccountExplained, AccountOf;
    AccountCount(env, front, e);
    if n < |Run(env, front).users| {
      OldAccountInRun(env, front, e, n);
    } else {
      NewAccountExplained(env, front, e);
    }
  }

  lemma KeptAccountStep(env: Env, front: seq<Entry>, e: Entry, i: nat)
    requires AccountsFaithful(env, front, Run(env, front)) && RegisteredAt(env, front + [e], i)
    ensures AccountKept(env, Run(env, front + [e]), (front + [e])[i])
  {
    hide Run, IsRegistration, ConfirmedWith, AccountExplained, TextField;
    var db := Run(env, front);
    RegisteredInLonger(env, front, e, i);
    if i < |front| {
      assert AccountKept(env, db, front[i]);
      hide AccountsFaithful;
      var n :| 0 <= n < |db.users| && n < |db.tokens| && AccountOf(env, front[i], db.users[n], db.tokens[n]);
      CarriedInRun(env, front, e, n);
      assert AccountOf(env, front[i], Run(env, front + [e]).users[n], Run(env, front + [e]).tokens[n]);
    } else {
      hide AccountOf;
      NewAccountExplained(env, front, e);
    }
  }

  lemma LiveTokenRow(env: Env, db: Db, e: Entry, token: Uuid) returns (n: nat)
    requires Valid(env, db) && ConfirmedWith(env, db, e, token)
    ensures n < |db.tokens| == |db.users| && db.tokens[n].token == token && e.moment.now < db.tokens[n].expiresAt
  {
    ConfirmationConsumes(env, db, e);
    hide IsConfirmation, PresentedToken, UsersOk, SessionsOk, FavoritesOk, EventsOk, LikesOk, CommentsOk;
    var live := Select(db.tokens, TokenLive(token, e.moment.now));
    assert live[0] in live;
    n :| 0 <= n < |db.tokens| && db.tokens[n] == live[0];
  }

  lemma ConsumptionStep(env: Env, front: seq<Entry>, e: Entry, j: nat, token: Uuid)
    requires AccountsFaithful(env, front, Run(env, front)) && AcceptedAt(env, front + [e], j, token)
    ensures ConsumptionKept(Run(env, front + [e]), token, (front + [e])[j].moment.now)
  {
    hide Run, AccountExplained, AccountKept, ConfirmedWith, RegisteredAt;
    var db := Run(env, front);
    AcceptedInLonger(env, front, e, j, token);
    if j < |front| {
      assert ConsumptionKept(db, token, front[j].moment.now);
      var n :| 0 <= n < |db.tokens| && db.tokens[n].token == token
        && db.tokens[n].consumedAt == Some(front[j].moment.now);
      CarriedInRun(env, front, e, n);
      assert Run(env, front + [e]).tokens[n].token == token;
    } else {
      hide AccountsFaithful, Valid;
      RunIsValid(env, front);
      var n := LiveTokenRow(env, db, e, token);
      CarriedInRun(env, front, e, n);
      assert Run(env, front + [e]).tokens[n].token == token;
    }
  }

  lemma {:induction false} RunAccountsFaithful(env: Env, h: seq<Entry>)
    ensures AccountsFaithful(env, h, Run(env, h))
  {
    if h != [] {
      var front, e := h[..|h| - 1], h[|h| - 1];
      assert h == front + [e];
      RunAccountsFaithful(env, front);
      AccountCount(env, front, e);
      hide Run, AccountExplained, AccountKept, ConsumptionKept, RegisteredAt, AcceptedAt;
      forall n | 0 <= n < |Run(env, h).users|
        ensures AccountExplained(env, h, Run(env, h).users[n], Run(env, h).tokens[n])
      {
        ExplainedAccountStep(env, front, e, n);
      }
      forall i: nat | RegisteredAt(env, h, i) ensures AccountKept(env, Run(env, h), h[i]) {
        KeptAccountStep(env, front, e, i);
      }
      forall j: nat, k | AcceptedAt(env, h, j, k) ensures ConsumptionKept(Run(env, h), k, h[j].moment.now) {
        ConsumptionStep(env, front, e, j, k);
      }
    }
  }

  // ----- the life of an account -----

  /** The account of a registration, wherever it stands in the tables of a later state. */
  ghost predicate Stands(env: Env, db: Db, e: Entry, n: nat) {
    n < |db.users| && n < |db.tokens| && AccountOf(env, e, db.users[n], db.tokens[n])
  }

  /** User n and token n belong to each other and to nobody else. */
  ghost predicate IsAlone(db: Db, n: nat) {
    && n < |db.users| == |db.tokens|
    && db.tokens[n].userId == db.users[n].id
    && (forall m :: 0 <= m < |db.users| && m != n ==> db.users[m].id != db.users[n].id)
    && (forall m :: 0 <= m < |db.tokens| && m != n ==> db.tokens[m].userId != db.users[n].id)
  }

  /** What validity says of one account row. */
  lemma AccountFacts(env: Env, db: Db, n: nat)
    requires Valid(env, db) && n < |db.tokens|
    ensures |db.users| == |db.tokens|
    ensures db.users[n].confirmedAt == db.tokens[n].consumedAt
    ensures db.tokens[n].consumedAt.Some? ==> db.tokens[n].consumedAt.value < db.tokens[n].expiresAt
    ensures forall m :: 0 <= m < |db.tokens| && m != n ==> db.tokens[m].token != db.tokens[n].token
    ensures IsAlone(db, n)
  {
    hide UserChecks, SessionsOk, FavoritesOk, EventsOk, LikesOk, CommentsOk;
  }

  lemma RegistrationStands(env: Env, h: seq<Entry>, i: nat) returns (n: nat)
    requires RegisteredAt(env, h, i)
    ensures Stands(env, Run(env, h), h[i], n)
  {
    hide Run, AccountOf, IsRegistration, AcceptedAt, AccountExplained, ConsumptionKept;
    RunAccountsFaithful(env, h);
    assert AccountKept(env, Run(env, h), h[i]);
    n :| 0 <= n < |Run(env, h).users| && n < |Run(env, h).tokens|
      && AccountOf(env, h[i], Run(env, h).users[n], Run(env, h).tokens[n]);
  }

  lemma AcceptanceIsRecorded(env: Env, h: seq<Entry>, n: nat, j: nat)
    requires n < |Run(env, h).tokens| && AcceptedAt(env, h, j, Run(env, h).tokens[n].token)
    ensures Run(env, h).tokens[n].consumedAt == Some(h[j].moment.now)
  {
    var db, token := Run(env, h), Run(env, h).tokens[n].token;
    RunIsValid(env, h);
    RunAccountsFaithful(env, h);
    AccountFacts(env, db, n);
    hide Run, Valid, ConfirmedWith, AccountExplained, AccountKept;
    assert ConsumptionKept(db, token, h[j].moment.now);
    var k :| 0 <= k < |db.tokens| && db.tokens[k].token == token && db.tokens[k].consumedAt == Some(h[j].moment.now);
  }

  lemma ConsumedWasAccepted(env: Env, h: seq<Entry>, n: nat)
    requires n < |Run(env, h).tokens| && Run(env, h).tokens[n].consumedAt.Some?
    ensures exists j: nat :: AcceptedAt(env, h, j, Run(env, h).tokens[n].token)
  {
    RunAccountsFaithful(env, h);
    hide Run, AccountOf, AcceptedAt, RegisteredAt;
    assert AccountExplained(env, h, Run(env, h).users[n], Run(env, h).tokens[n]);
  }

  /** Each accepted registration has one user and one token of its own in every later state; the
      user is confirmed exactly when the token was accepted, at that instant, before its expiry. */
  lemma AccountLifecycle(env: Env, h: seq<Entry>, i: nat) returns (n: nat)
    requires RegisteredAt(env, h, i)
    ensures Stands(env, Run(env, h), h[i], n)
    ensures IsAlone(Run(env, h), n)
    ensures Run(env, h).users[n].confirmedAt.Some? <==>
            exists j: nat :: AcceptedAt(env, h, j, h[i].moment.confirmationToken)
    ensures forall j: nat :: AcceptedAt(env, h, j, h[i].moment.confirmationToken) ==>
              && Run(env, h).users[n].confirmedAt == Some(h[j].moment.now)
              && h[j].moment.now < h[i].moment.now + Hours(h[i].settings.confirmationTtlHours)
  {
    n := RegistrationStands(env, h, i);
    RunIsValid(env, h);
    AccountFacts(env, Run(env, h), n);
    hide Run, Valid, TextField, RegisteredAt, IsAlone;
    assert Run(env, h).tokens[n].token == h[i].moment.confirmationToken;
    forall j: nat | AcceptedAt(env, h, j, h[i].moment.confirmationToken)
      ensures Run(env, h).tokens[n].consumedAt == Some(h[j].moment.now)
    {
      AcceptanceIsRecorded(env, h, n, j);
    }
    hide AcceptedAt;
    if Run(env, h).users[n].confirmedAt.Some? {
      ConsumedWasAccepted(env, h, n);
    }
  }

  /** Every account in the tables came from an accepted registration. */
  lemma EveryAccountWasRegistered(env: Env, h: seq<Entry>, n: nat)
    requires n < |Run(env, h).users|
    ensures n < |Run(env, h).tokens| && exists i: nat :: RegisteredAt(env, h, i) && Stands(env, Run(env, h), h[i], n)
  {
    RunAccountsFaithful(env, h);
    hide Run, AccountOf, IsRegistration;
    assert AccountExplained(env, h, Run(env, h).users[n], Run(env, h).tokens[n]);
  }

  lemma AcceptedTokenIsDead(env: Env, front: seq<Entry>, first: nat, e: Entry, token: Uuid)
    requires AcceptedAt(env, front, first, token)
    ensures !ConfirmedWith(env, Run(env, front), e, token)
  {
    var db := Run(env, front);
    RunAccountsFaithful(env, front);
    assert ConsumptionKept(db, token, front[first].moment.now);
    hide AccountsFaithful, AcceptedAt;
    var n :| 0 <= n < |db.tokens| && db.tokens[n].token == token
      && db.tokens[n].consumedAt == Some(front[first].moment.now);
    RunIsValid(env, front);
    AccountFacts(env, db, n);
    CarriedInRun(env, front, e, n);
    hide Run, Valid, ConfirmedWith;
  }

  /** No token is accepted twice. */
  lemma TokensAreAcceptedOnce(env: Env, h: seq<Entry>, i: nat, j: nat, token: Uuid)
    requires AcceptedAt(env, h, i, token) && AcceptedAt(env, h, j, token)
    ensures i == j
  {
    hide Run, ConfirmedWith;
    var first, second := if i < j then i else j, if i < j then j else i;
    var front := h[..second];
    assert forall k :: 0 <= k < second ==> front[..k] == h[..k];
    if first < second {
      assert Found(env, front, first) == Found(env, h, first);
      assert AcceptedAt(env, front, first, token);
      AcceptedTokenIsDead(env, front, first, h[second], token);
    }
  }

  /** A confirmation, once set, is never changed by any later request. */
  lemma {:induction false} ConfirmationIsPermanent(env: Env, h: seq<Entry>, more: seq<Entry>, n: nat)
    requires n < |Run(env, h).users| && Run(env, h).users[n].confirmedAt.Some?
    ensures n < |Run(env, h + more).users|
    ensures Run(env, h + more).users[n].id == Run(env, h).users[n].id
    ensures Run(env, h + more).users[n].email == Run(env, h).users[n].email
    ensures Run(env, h + more).users[n].confirmedAt == Run(env, h).users[n].confirmedAt
    decreases |more|
  {
    if more == [] {
      assert h + more == h;
    } else {
      var front, e := more[..|more| - 1], more[|more| - 1];
      assert h + more == (h + front) + [e];
      ConfirmationIsPermanent(env, h, front, n);
      OneStepKeepsConfirmation(env, h + front, e, n);
    }
  }

  lemma OneStepKeepsConfirmation(env: Env, h: seq<Entry>, e: Entry, n: nat)
    requires n < |Run(env, h).users| && Run(env, h).users[n].confirmedAt.Some?
    ensures n < |Run(env, h + [e]).users|
    ensures Run(env, h + [e]).users[n].id == Run(env, h).users[n].id
    ensures Run(env, h + [e]).users[n].email == Run(env, h).users[n].email
    ensures Run(env, h + [e]).users[n].confirmedAt == Run(env, h).users[n].confirmedAt
  {
    CarriedInRun(env, h, e, n);
    RunIsValid(env, h);
    RunIsValid(env, h + [e]);
    AccountCount(env, h, e);
    hide Run, ConfirmedWith, UsersOk, SessionsOk, FavoritesOk, EventsOk, LikesOk, CommentsOk, IsRegistration;
  }

  // ----- sign-in -----

  /** Requests are served one after the other by one thread. */
  ghost predicate Clocked(h: seq<Entry>) {
    forall i, j :: 0 <= i <= j < |h| ==> h[i].moment.now <= h[j].moment.now
  }

  lemma LoginFindsConfirmedUser(env: Env, h: seq<Entry>, i: nat, token: Uuid, user: Uuid) returns (n: nat)
    requires OpenedAt(env, h, i, token, user)
    ensures n < |Found(env, h, i).users| && Found(env, h, i).users[n].id == user
            && Found(env, h, i).users[n].confirmedAt.Some?
  {
    RunIsValid(env, h[..i]);
    hide Run, Valid, SignedInWith;
    var u := LoginUserIsConfirmed(env, Found(env, h, i), h[i], token, user);
    n :| 0 <= n < |Found(env, h, i).users| && Found(env, h, i).users[n] == u;
  }

  lemma LoginUserIsConfirmed(env: Env, db: Db, e: Entry, token: Uuid, user: Uuid) returns (u: User)
    requires Valid(env, db) && SignedInWith(env, db, e, token, user)
    ensures u in db.users && u.id == user && u.confirmedAt.Some?
  {
    LoginAddsSession(env, db, e);
    var s := After(env, db, e).sessions[|db.sessions|];
    assert user == s.userId;
    hide Valid, IsLogin, After, LoginName, SignedInWith;
    u :| u in db.users && u.id == s.userId && u.confirmedAt.Some?;
  }

  lemma SessionOrigin(env: Env, h: seq<Entry>, s: Session) returns (i: nat)
    requires s in Run(env, h).sessions
    ensures OpenedAt(env, h, i, s.token, s.userId) && s.createdAt == h[i].moment.now
  {
    RunIsFaithful(env, h);
    hide Run, Kept, KnownToken, EverClosed, SignedInWith;
    var k :| 0 <= k < |Run(env, h).sessions| && Run(env, h).sessions[k] == s;
    FaithfulRow(env, h, k);
    i :| OpenedAt(env, h, i, s.token, s.userId) && s.createdAt == h[i].moment.now;
  }

  /** Every session belongs to a user who was confirmed no later than the session was made. */
  lemma SessionsFollowConfirmation(env: Env, h: seq<Entry>, s: Session, u: User)
    requires Clocked(h) && s in Run(env, h).sessions && u in Run(env, h).users && u.id == s.userId
    ensures u.confirmedAt.Some? && u.confirmedAt.value <= s.createdAt
  {
    hide Run, SignedInWith;
    var i := SessionOrigin(env, h, s);
    var n := LoginFindsConfirmedUser(env, h, i, s.token, s.userId);
    ConfirmedBefore(env, h, i, n);
    assert h == h[..i] + h[i..];
    ConfirmationIsPermanent(env, h[..i], h[i..], n);
    SameIdSameUser(env, h, n, u);
  }

  lemma SameIdSameUser(env: Env, h: seq<Entry>, n: nat, u: User)
    requires n < |Run(env, h).users| && u in Run(env, h).users && u.id == Run(env, h).users[n].id
    ensures u == Run(env, h).users[n]
  {
    RunIsValid(env, h);
    hide Run, UserChecks, AccountsOk, SessionsOk, FavoritesOk, EventsOk, LikesOk, CommentsOk;
    var m :| 0 <= m < |Run(env, h).users| && Run(env, h).users[m] == u;
  }

  /** Whoever is confirmed when request i arrives was confirmed at a time that has passed. */
  lemma ConfirmedBefore(env: Env, h: seq<Entry>, i: nat, n: nat)
    requires Clocked(h) && i < |h| && n < |Found(env, h, i).users| && Found(env, h, i).users[n].confirmedAt.Some?
    ensures Found(env, h, i).users[n].confirmedAt.value <= h[i].moment.now
  {
    hide Run, Valid, AcceptedAt, IsAlone;
    var front := h[..i];
    RunIsValid(env, front);
    AccountRowsPair(env, Run(env, front), n);
    ConsumedWasAccepted(env, front, n);
    var j: nat :| AcceptedAt(env, front, j, Run(env, front).tokens[n].token);
    AcceptanceIsRecorded(env, front, n, j);
    AcceptedInside(env, front, j, Run(env, front).tokens[n].token);
    assert front[j] == h[j];
  }

  lemma AcceptedInside(env: Env, h: seq<Entry>, j: nat, token: Uuid)
    requires AcceptedAt(env, h, j, token)
    ensures j < |h|
  {
  }

  lemma AccountRowsPair(env: Env, db: Db, n: nat)
    requires Valid(env, db) && n < |db.users|
    ensures n < |db.tokens| && db.tokens[n].consumedAt == db.users[n].confirmedAt
  {
  }

  lemma RegisteredTextIsUtf8(env: Env, db: Db, e: Entry)
    requires IsRegistration(env, db, e)
    ensures IsUtf8(Lower(TextField(env, e, "email", 5, 254))) && IsUtf8(TextField(env, e, "password", 12, 256))
    ensures Validation.IsEmail(TextField(env, e, "email", 5, 254))
    ensures env.lower(Lower(TextField(env, e, "email", 5, 254))) == Lower(TextField(env, e, "email", 5, 254))
  {
    StepIsServe(env, db, e);
    hide Step, Recognise, IsUtf8, Validation.Email, Lower, Json.GetString, JsonFor, Reached, Has;
  }

  /** One user answers to the address; the law of `crypt` makes the registered password match. */
  lemma RegisteredUserIsFound(env: Env, db: Db, n: nat, password: string, salt: string)
    requires env.Lawful() && Valid(env, db) && n < |db.users|
    requires db.users[n].confirmedAt.Some? && db.users[n].passwordHash == env.crypt(password, salt)
    ensures Select(db.users, CanSignIn(env, db.users[n].email, password)) == [db.users[n]]
  {
    hide UserChecks, AccountsOk, SessionsOk, FavoritesOk, EventsOk, LikesOk, CommentsOk, StrictTotalOrder;
    SelectUnique(db.users, CanSignIn(env, db.users[n].email, password));
  }

  /** Once confirmed, the address in any letter case with the password of registration signs in,
      unless the generated session token is already taken. */
  lemma CorrectPasswordSignsIn(env: Env, h: seq<Entry>, i: nat, j: nat, e: Entry)
    requires env.Lawful() && RegisteredAt(env, h, i) && AcceptedAt(env, h, j, h[i].moment.confirmationToken)
    requires Reached(env, e) && RouteOf(e) == Login
    requires LoginName(env, e) == Some(Lower(TextField(env, h[i], "email", 5, 254)))
    requires Json.GetString(JsonFor(env, e), "password", 1, 256) == Some(TextField(env, h[i], "password", 12, 256))
    ensures var db := Run(env, h);
            if exists s | s in db.sessions :: s.token == e.moment.sessionToken(0) then ReplyTo(env, db, e).status == 500
            else SignedInWith(env, db, e, e.moment.sessionToken(0), h[i].moment.userId)
  {
    var db := Run(env, h);
    RunIsValid(env, h);
    var n := AccountLifecycle(env, h, i);
    RegisteredTextIsUtf8(env, Found(env, h, i), h[i]);
    Validation.LowerKeepsEmail(TextField(env, h[i], "email", 5, 254), TextField(env, e, "email", 5, 254));
    assert db.users[n].confirmedAt.Some?;
    RegisteredUserIsFound(env, db, n, TextField(env, h[i], "password", 12, 256), h[i].moment.salt);
    SignInWithFoundUser(env, db, e, db.users[n]);
  }

  lemma SignInOutcome(env: Env, db: Db, e: Entry, json: Option<Json.Value>, u: User)
    requires Validation.Email(Json.GetString(json, "email", 5, 254))
    requires Lower(Json.GetString(json, "email", 5, 254).value) == u.email
    requires Json.GetString(json, "password", 1, 256).Some?
    requires IsUtf8(u.email) && IsUtf8(Json.GetString(json, "password", 1, 256).value)
    requires Select(db.users, CanSignIn(env, u.email, Json.GetString(json, "password", 1, 256).value)) == [u]
    ensures SignIn(env, db, e, json).response ==
            if exists s | s in db.sessions :: s.token == e.moment.sessionToken(0) then
              Response(500, Error("database_error"))
            else Response(200, SignedIn(e.moment.sessionToken(0), e.moment.now + Hours(e.settings.tokenTtlHours)))
  {
    hide IsUtf8, Validation.Email, Lower, Json.GetString, CanSignIn, Select;
  }

  lemma SignInWithFoundUser(env: Env, db: Db, e: Entry, u: User)
    requires Reached(env, e) && RouteOf(e) == Login
    requires Validation.Email(Json.GetString(JsonFor(env, e), "email", 5, 254)) && LoginName(env, e) == Some(u.email)
    requires Json.GetString(JsonFor(env, e), "password", 1, 256).Some?
    requires IsUtf8(u.email) && IsUtf8(Json.GetString(JsonFor(env, e), "password", 1, 256).value)
    requires Select(db.users, CanSignIn(env, u.email, Json.GetString(JsonFor(env, e), "password", 1, 256).value)) == [u]
    ensures if exists s | s in db.sessions :: s.token == e.moment.sessionToken(0) then ReplyTo(env, db, e).status == 500
            else SignedInWith(env, db, e, e.moment.sessionToken(0), u.id)
  {
    hide Step, SignIn, Recognise, IsUtf8, Validation.Email, Lower, Json.GetString, JsonFor, Reached, CanSignIn, Select;
    StepIsServe(env, db, e);
    assert u in Select(db.users, CanSignIn(env, u.email, Json.GetString(JsonFor(env, e), "password", 1, 256).value));
    SignInOutcome(env, db, e, JsonFor(env, e), u);
  }
}
