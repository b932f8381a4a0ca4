/** What lookups return in a valid state: at most one row, and always a row that is there. */
module Lookup {
  import opened Options
  import opened Text
  import opened Uuids
  import opened Tables
  import opened Schema
  import opened Sql
  import opened Service
  import Json
  import Validation

  lemma {:induction false} OwnersAreConfirmedUsers(sessions: seq<Session>, users: seq<User>, token: Uuid, at: Time)
    ensures forall u :: u in Owners(sessions, users, token, at) <==>
              u in users && u.confirmedAt.Some? && exists s ::
                s in sessions && s.userId == u.id && SessionLive(token, at)(s)
  {
    if sessions != [] {
      OwnersAreConfirmedUsers(sessions[1..], users, token, at);
      assert sessions == [sessions[0]] + sessions[1..];
    }
  }

  lemma {:induction false} NoLiveSessionNoOwner(sessions: seq<Session>, users: seq<User>, token: Uuid, at: Time)
    requires forall s :: s in sessions ==> s.token != token
    ensures Owners(sessions, users, token, at) == []
  {
    if sessions != [] {
      NoLiveSessionNoOwner(sessions[1..], users, token, at);
    }
  }

  /** Distinct tokens and distinct ids leave one row at most, so `row_count != 1` means none. */
  lemma {:induction false} OwnersAtMostOne(sessions: seq<Session>, users: seq<User>, token: Uuid, at: Time)
    requires forall i, j :: 0 <= i < j < |sessions| ==> sessions[i].token != sessions[j].token
    requires forall i, j :: 0 <= i < j < |users| ==> users[i].id != users[j].id
    ensures |Owners(sessions, users, token, at)| <= 1
  {
    if sessions != [] {
      OwnersAtMostOne(sessions[1..], users, token, at);
      if sessions[0].token == token {
        NoLiveSessionNoOwner(sessions[1..], users, token, at);
        SelectUnique(users, IsConfirmed(sessions[0].userId));
      }
    }
  }

  /** `u` is confirmed and has a live session with this token. */
  ghost predicate Owns(db: Db, token: Uuid, at: Time, u: User) {
    u in db.users && u.confirmedAt.Some? && exists s ::
      s in db.sessions && s.userId == u.id && SessionLive(token, at)(s)
  }

  lemma OwnerIsSelected(env: Env, db: Db, token: Uuid, at: Time, u: User)
    requires Valid(env, db)
    ensures Owns(db, token, at, u) <==> Owners(db.sessions, db.users, token, at) == [u]
    ensures |Owners(db.sessions, db.users, token, at)| <= 1
  {
    hide UserChecks, AccountsOk, FavoritesOk, EventsOk, LikesOk, CommentsOk, SessionLive, ConfirmedIn, Owners;
    var users := Owners(db.sessions, db.users, token, at);
    OwnersAtMostOne(db.sessions, db.users, token, at);
    OwnersAreConfirmedUsers(db.sessions, db.users, token, at);
    assert Owns(db, token, at, u) <==> u in users;
  }

  /** The caller is the confirmed owner of a live session with the token of the header. */
  lemma CallerMeaning(env: Env, db: Db, at: Time, authorization: Option<string>, u: User)
    requires Valid(env, db)
    ensures CallerOf(db, at, authorization) == SignedInAs(u) <==>
              BearerToken(authorization).Some? && Owns(db, BearerToken(authorization).value, at, u)
  {
    if BearerToken(authorization).Some? {
      OwnerIsSelected(env, db, BearerToken(authorization).value, at, u);
    }
  }

  lemma CallerIsUser(env: Env, db: Db, at: Time, authorization: Option<string>)
    requires Valid(env, db) && CallerOf(db, at, authorization).SignedInAs?
    ensures BearerToken(authorization).Some?
    ensures var u := CallerOf(db, at, authorization).user;
            u in db.users && u.confirmedAt.Some? && |u.email| <= 254 && RefersTo(db.users, Some(u.id))
  {
    CallerMeaning(env, db, at, authorization, CallerOf(db, at, authorization).user);
  }

  /** A refused actor learns the true cause: 401 exactly when a header was sent that names no
      confirmed owner of a live session, and 400 exactly when no header was sent and the
      anonymous id is missing or malformed. */
  lemma RefusalNamesItsCause(env: Env, db: Db, at: Time, authorization: Option<string>, json: Option<Json.Value>)
    requires Valid(env, db)
    ensures var sent := authorization.Some? && authorization.value != "";
            var token := BearerToken(authorization);
            ActorOf(db, at, authorization, json) == Unknown(401, "invalid_token") <==>
              sent && (token.None? || forall u :: !Owns(db, token.value, at, u))
    ensures var sent := authorization.Some? && authorization.value != "";
            var id := Json.GetOptionalString(json, "anonymous_id", 200);
            ActorOf(db, at, authorization, json) == Unknown(400, "anonymous_id_required") <==>
              !sent && (id.None? || !Validation.IsAnonymousId(id.value))
    ensures var who := ActorOf(db, at, authorization, json);
            who.Unknown? ==> who in {Unknown(401, "invalid_token"), Unknown(400, "anonymous_id_required")}
  {
    hide BearerToken, Json.GetString, Validation.IsAnonymousId, Owns, Valid;
    var caller := CallerOf(db, at, authorization);
    if caller.SignedInAs? {
      CallerMeaning(env, db, at, authorization, caller.user);
    } else {
      forall u ensures !(BearerToken(authorization).Some? && Owns(db, BearerToken(authorization).value, at, u)) {
        CallerMeaning(env, db, at, authorization, u);
      }
    }
  }

  /** The texts that a handler sends for an actor convert back to the actor's columns. */
  lemma ActorTexts(actor: Actor)
    requires actor.Valid()
    ensures NullableUuid(actor.UserText()) == Some(actor.UserId()) && IsUtf8(actor.UserText())
    ensures NullIfEmpty(actor.AnonymousText()) == actor.AnonymousId() && IsUtf8(actor.AnonymousText())
    ensures actor.Visitor? ==> LengthWithin(actor.anonymousId, 8, 200)
    ensures IsUtf8(actor.Key())
  {
    ActorKeyShape(actor);
    if actor.Account? {
      ParsePrinted(actor.id);
      AsciiIsUtf8(Print(actor.id));
    } else {
      AsciiIsUtf8(actor.anonymousId);
    }
  }

  lemma KnownActorsAreReal(env: Env, db: Db, e: Entry, json: Option<Json.Value>)
    requires Valid(env, db) && ActorOf(db, e.moment.authAt, e.request.authorization, json).Known?
    ensures var actor := ActorOf(db, e.moment.authAt, e.request.authorization, json).actor;
            actor.Valid() && RefersTo(db.users, actor.UserId())
  {
    if CallerOf(db, e.moment.authAt, e.request.authorization).SignedInAs? {
      CallerIsUser(env, db, e.moment.authAt, e.request.authorization);
    }
  }
}
