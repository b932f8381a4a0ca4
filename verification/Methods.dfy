/** Safe and idempotent methods (sections 9.2.1 and 9.2.2 of RFC 9110). */
module Methods {
  import opened Options
  import opened Tables
  import opened Uuids
  import opened Schema
  import opened Router
  import opened Sql
  import opened Service
  import opened Lookup
  import opened Effects
  import Json
  import Validation

  lemma SafeRoutes(verb: string, url: string)
    requires verb == "GET" || verb == "OPTIONS"
    ensures var r := Recognise(verb, url);
            r.Preflight? || r.Health? || r.TopContent? || r.FavoriteList? || r.NotFound?
  {
  }

  /** No GET and no OPTIONS request changes any table. */
  lemma SafeMethodsChangeNothing(env: Env, db: Db, e: Entry)
    requires e.request.verb == "GET" || e.request.verb == "OPTIONS"
    ensures After(env, db, e) == db
  {
    SafeRoutes(e.request.verb, e.request.url);
    hide Recognise, After;
    ReadsFrame(env, db, e);
  }

  lemma ChangingRoutes(verb: string, url: string)
    requires verb == "PUT" || verb == "DELETE"
    ensures var r := Recognise(verb, url);
            r.CloseSession? || r.FavoriteChange? || r.Like? || r.ContentIdTooLong? || r.NotFound?
  {
  }

  /** The same request again, later. */
  ghost predicate Repeats(e: Entry, again: Entry) {
    && again.request == e.request
    && e.moment.authAt <= e.moment.now <= again.moment.authAt
  }

  /** Whoever a token names later it named before: sessions only run out. */
  lemma CallersRunOut(env: Env, db: Db, t: Time, u: Time, authorization: Option<string>)
    requires Valid(env, db) && t <= u
    ensures CallerOf(db, u, authorization).SignedInAs? ==>
            CallerOf(db, t, authorization) == CallerOf(db, u, authorization)
  {
    hide Valid, CallerOf, BearerToken;
    if CallerOf(db, u, authorization).SignedInAs? {
      var user := CallerOf(db, u, authorization).user;
      CallerMeaning(env, db, u, authorization, user);
      CallerMeaning(env, db, t, authorization, user);
    }
  }

  /** Nobody comes to be known, or changes, by waiting; anonymous callers stay as they are. */
  lemma ActorsRunOut(env: Env, db: Db, t: Time, u: Time, authorization: Option<string>, json: Option<Json.Value>)
    requires Valid(env, db) && t <= u
    ensures ActorOf(db, u, authorization, json).Known? ==>
            ActorOf(db, t, authorization, json) == ActorOf(db, u, authorization, json)
  {
    CallersRunOut(env, db, t, u, authorization);
    hide Valid, BearerToken, Owners;
  }

  lemma SameTablesSameCallers(a: Db, b: Db, t: Time, authorization: Option<string>, json: Option<Json.Value>)
    requires a.users == b.users && a.sessions == b.sessions
    ensures CallerOf(a, t, authorization) == CallerOf(b, t, authorization)
    ensures ActorOf(a, t, authorization, json) == ActorOf(b, t, authorization, json)
  {
    hide Owners, BearerToken;
  }

  // ----- DELETE /auth/session -----

  lemma RevokingTwice(sessions: seq<Session>, token: Uuid, t: Time, u: Time)
    ensures Update(Update(sessions, SessionOpen(token), Revoke(t)), SessionOpen(token), Revoke(u))
         == Update(sessions, SessionOpen(token), Revoke(t))
  {
  }

  lemma LogoutRepeats(env: Env, db: Db, e: Entry, again: Entry)
    requires Valid(env, db) && Repeats(e, again) && RouteOf(e) == CloseSession
    ensures After(env, After(env, db, e), again) == After(env, db, e)
  {
    var after := After(env, db, e);
    OnlyAcceptedRequestsChange(env, db, e);
    OnlyAcceptedRequestsChange(env, after, again);
    StepIsServe(env, db, e);
    StepIsServe(env, after, again);
    if Reached(env, e) {
      assert Reached(env, again);
      LogoutTwice(env, db, e, again);
    }
    hide Step, Recognise, SignOut, Valid;
  }

  lemma LogoutTwice(env: Env, db: Db, e: Entry, again: Entry)
    requires Valid(env, db) && Repeats(e, again)
    ensures SignOut(SignOut(db, e).db, again).db == SignOut(db, e).db
  {
    var authorization := e.request.authorization;
    if CallerOf(db, e.moment.authAt, authorization).SignedInAs? {
      RevokingTwice(db.sessions, BearerToken(authorization).value, e.moment.now, again.moment.now);
    } else {
      CallersRunOut(env, db, e.moment.authAt, again.moment.authAt, authorization);
    }
    hide CallerOf, BearerToken, Valid, Update;
  }

  // ----- PUT and DELETE of favourites -----

  lemma FavoriteRowsTwice(rows: seq<Favorite>, userId: Uuid, key: string, now: Time)
    ensures Delete(Delete(rows, FavoriteIs(userId, key)), FavoriteIs(userId, key)) ==
            Delete(rows, FavoriteIs(userId, key))
    ensures Has(rows + [Favorite(userId, key, now)], FavoriteIs(userId, key))
  {
    DeleteNothing(Delete(rows, FavoriteIs(userId, key)), FavoriteIs(userId, key));
    var row := Favorite(userId, key, now);
    assert FavoriteIs(userId, key)(row) && row in rows + [row];
  }

  lemma FavoriteTwice(env: Env, db: Db, e: Entry, again: Entry, kind: Kind, put: bool, key: string)
    requires Valid(env, db) && Repeats(e, again)
    ensures var after := ChangeFavorite(db, e, kind, put, key).db;
            ChangeFavorite(after, again, kind, put, key).db == after
  {
    hide CallerOf, Valid, Validation.IsKey, Has, Delete, FavoriteIs;
    var after := ChangeFavorite(db, e, kind, put, key).db;
    var authorization := e.request.authorization;
    SameTablesSameCallers(db, after, again.moment.authAt, authorization, None);
    CallersRunOut(env, db, e.moment.authAt, again.moment.authAt, authorization);
    if CallerOf(db, again.moment.authAt, authorization).SignedInAs? {
      FavoriteRowsTwice(db.Favorites(kind), CallerOf(db, again.moment.authAt, authorization).user.id, key,
                        e.moment.now);
    }
  }

  lemma FavoriteRepeats(env: Env, db: Db, e: Entry, again: Entry)
    requires Valid(env, db) && Repeats(e, again) && RouteOf(e).FavoriteChange?
    ensures After(env, After(env, db, e), again) == After(env, db, e)
  {
    var after := After(env, db, e);
    StepIsServe(env, db, e);
    StepIsServe(env, after, again);
    var r := RouteOf(e);
    if Reached(env, e) {
      assert Reached(env, again);
      FavoriteTwice(env, db, e, again, r.kind, r.put, r.key);
    }
    hide Step, Recognise, ChangeFavorite, Valid;
  }

  // ----- PUT and DELETE of likes -----

  lemma LikeAppliedTwice(db: Db, t: Time, u: Time, put: bool, contentId: string, actor: Actor, portal: string)
    ensures var after := LikeApplied(db, t, put, contentId, actor, portal);
            LikeApplied(after, u, put, contentId, actor, portal).Rows() == after.Rows()
  {
    hide Actor.Key;
    var where := LikeIs(contentId, actor.Key());
    var after := LikeApplied(db, t, put, contentId, actor, portal);
    DeleteNothing(Delete(db.likes, where), where);
    if put && !Has(db.likes, where) {
      var row := LikeRow(db.nextLike, contentId, actor.UserId(), actor.AnonymousId(), actor.Key(), t);
      assert where(row) && row in db.likes + [row];
    }
  }

  lemma LikeTwice(env: Env, db: Db, e: Entry, again: Entry, put: bool, contentId: string, json: Option<Json.Value>)
    requires Valid(env, db) && Repeats(e, again)
    ensures var after := ChangeLike(db, e, put, contentId, json).db;
            ChangeLike(after, again, put, contentId, json).db.Rows() == after.Rows()
  {
    var after := ChangeLike(db, e, put, contentId, json).db;
    var authorization := e.request.authorization;
    assert after.users == db.users && after.sessions == db.sessions by {
      LikeFrame(db, e, put, contentId, json);
      hide ChangeLike;
    }
    SameTablesSameCallers(db, after, again.moment.authAt, authorization, json);
    ActorsRunOut(env, db, e.moment.authAt, again.moment.authAt, authorization, json);
    hide ActorOf, Valid, Validation.IsKey, Json.GetString, LikeApplied;
    if ActorOf(db, again.moment.authAt, authorization, json).Known? {
      LikeAppliedTwice(db, e.moment.now, again.moment.now, put, contentId,
                       ActorOf(db, again.moment.authAt, authorization, json).actor,
                       TextOr(Json.GetString(json, "portal_key", 1, 120)));
    }
  }

  lemma LikeRepeats(env: Env, db: Db, e: Entry, again: Entry)
    requires Valid(env, db) && Repeats(e, again) && RouteOf(e).Like?
    ensures After(env, After(env, db, e), again).Rows() == After(env, db, e).Rows()
  {
    var after := After(env, db, e);
    StepIsServe(env, db, e);
    StepIsServe(env, after, again);
    var r := RouteOf(e);
    if Reached(env, e) {
      assert Reached(env, again);
      assert JsonFor(env, again) == JsonFor(env, e);
      LikeTwice(env, db, e, again, r.put, r.contentId, JsonFor(env, e));
    }
    hide Step, Recognise, ChangeLike, Valid;
  }

  /** Repeating a PUT or a DELETE later leaves every row, the event log included, as after the first. */
  lemma PutAndDeleteAreIdempotent(env: Env, db: Db, e: Entry, again: Entry)
    requires Valid(env, db) && Repeats(e, again)
    requires e.request.verb == "PUT" || e.request.verb == "DELETE"
    ensures After(env, After(env, db, e), again).Rows() == After(env, db, e).Rows()
  {
    ChangingRoutes(e.request.verb, e.request.url);
    hide Valid, After, Recognise;
    match RouteOf(e)
    case CloseSession => LogoutRepeats(env, db, e, again);
    case FavoriteChange(_, _, _) => FavoriteRepeats(env, db, e, again);
    case Like(_, _) => LikeRepeats(env, db, e, again);
    case _ =>
      ReadsFrame(env, db, e);
      ReadsFrame(env, db, again);
  }
}
