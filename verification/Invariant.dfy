/** Every request keeps every constraint of the schema and the account correspondence. */
module Invariant {
  import opened Options
  import opened Text
  import opened Uuids
  import opened Validation
  import opened Tables
  import opened Schema
  import opened Router
  import opened Sql
  import opened Service
  import opened Lookup
  import opened Statements
  import Json
  import Upload

  /** Users stay, with their ids and with their confirmation once they have one. */
  ghost predicate Extends(a: seq<User>, b: seq<User>) {
    forall u :: u in a ==> exists v ::
      v in b && v.id == u.id && (u.confirmedAt.Some? ==> v.confirmedAt == u.confirmedAt)
  }

  lemma ReferencesSurvive(a: seq<User>, b: seq<User>, id: Option<Uuid>)
    requires Extends(a, b) && RefersTo(a, id)
    ensures RefersTo(b, id)
  {
    if id.Some? {
      var u :| u in a && HasId(id.value)(u);
      var v :| v in b && v.id == u.id;
      assert HasId(id.value)(v);
    }
  }

  lemma OtherTablesSurvive(env: Env, db: Db, users: seq<User>)
    requires Valid(env, db) && Extends(db.users, users)
    ensures SessionsOk(users, db.sessions)
    ensures FavoritesOk(users, db.sections) && FavoritesOk(users, db.tags)
    ensures EventsOk(users, db.events, db.nextEvent)
    ensures LikesOk(users, db.likes, db.nextLike)
    ensures CommentsOk(users, db.comments)
  {
    hide IsUtf8, CharLength, LengthWithin, RefersTo, HasId, HasActor;
    forall id | RefersTo(db.users, id) ensures RefersTo(users, id) {
      ReferencesSurvive(db.users, users, id);
    }
    forall i | 0 <= i < |db.sessions| ensures ConfirmedIn(users, db.sessions[i].userId) {
      assert ConfirmedIn(db.users, db.sessions[i].userId);
      var u :| u in db.users && u.id == db.sessions[i].userId && u.confirmedAt.Some?;
      var v :| v in users && v.id == u.id && (u.confirmedAt.Some? ==> v.confirmedAt == u.confirmedAt);
    }
  }

  // ----- accounts -----

  lemma RegisterKeepsAccounts(env: Env, db: Db, user: User, token: Token)
    requires UsersOk(env, db.users) && AccountsOk(db.users, db.tokens)
    requires !Has(db.users, HasId(user.id)) && !Has(db.users, HasEmail(user.email))
             && !Has(db.tokens, HasToken(token.token))
    requires UserChecks(env, user) && |user.email| <= 254
    requires token.userId == user.id && token.consumedAt.None? && user.confirmedAt.None?
    ensures UsersOk(env, db.users + [user]) && AccountsOk(db.users + [user], db.tokens + [token])
    ensures Extends(db.users, db.users + [user])
  {
    hide UserChecks;
    forall i | 0 <= i < |db.users| ensures db.users[i].id != user.id && db.users[i].email != user.email {
      assert !HasId(user.id)(db.users[i]) && !HasEmail(user.email)(db.users[i]);
    }
    forall i | 0 <= i < |db.tokens| ensures db.tokens[i].token != token.token {
      assert !HasToken(token.token)(db.tokens[i]);
    }
  }

  lemma RegisterKeeps(env: Env, db: Db, e: Entry, json: Option<Json.Value>)
    requires Valid(env, db)
    ensures Valid(env, RegisterAccount(env, db, e, json).db)
  {
    hide IsUtf8, CharLength, Email, IsEmail, Lower, Json.GetString, Has, SessionsOk, FavoritesOk, EventsOk, LikesOk,
         CommentsOk;
    var after := RegisterAccount(env, db, e, json).db;
    if after != db {
      var user, token := after.users[|db.users|], after.tokens[|db.tokens|];
      LowerFacts(Json.GetString(json, "email", 5, 254).value);
      ByteBoundsBoundCharacters(user.displayName);
      assert UserChecks(env, user);
      hide UserChecks;
      RegisterKeepsAccounts(env, db, user, token);
      OtherTablesSurvive(env, db, after.users);
    }
  }

  /** The user confirmed by a live token is the one beside it. */
  lemma ConfirmedAt(env: Env, db: Db, now: Time, token: Uuid, i: nat)
    requires UsersOk(env, db.users) && AccountsOk(db.users, db.tokens)
    requires i < |db.tokens|
    requires |Select(db.tokens, TokenLive(token, now))| == 1
    ensures var after := ConfirmWith(db, now, token).db;
            if TokenLive(token, now)(db.tokens[i]) then
              && after.tokens[i] == db.tokens[i].(consumedAt := Some(now))
              && after.users[i] == db.users[i].(confirmedAt := Some(now), updatedAt := now)
              && db.users[i].confirmedAt.None?
            else after.tokens[i] == db.tokens[i] && after.users[i] == db.users[i]
  {
    hide UserChecks;
    var live := Select(db.tokens, TokenLive(token, now));
    assert live[0] in live;
    var k :| 0 <= k < |db.tokens| && db.tokens[k] == live[0];
    assert TokenLive(token, now)(db.tokens[k]);
    assert HasId(live[0].userId)(db.users[i]) <==> i == k;
    assert TokenLive(token, now)(db.tokens[i]) ==> i == k;
  }

  /** Row i after a rewrite: the same account, confirmed together with its token if at all. */
  ghost predicate SameAccount(env: Env, u: User, t: Token, v: User, w: Token) {
    && v.id == u.id && v.email == u.email && UserChecks(env, v)
    && w.token == t.token && w.userId == v.id
    && w.consumedAt == v.confirmedAt
    && (w.consumedAt.Some? ==> w.consumedAt.value < w.expiresAt)
    && (u.confirmedAt.Some? ==> v.confirmedAt == u.confirmedAt)
  }

  lemma RewrittenAccounts(env: Env, users: seq<User>, tokens: seq<Token>, users': seq<User>, tokens': seq<Token>)
    requires UsersOk(env, users) && AccountsOk(users, tokens)
    requires |users'| == |users| && |tokens'| == |tokens|
    requires forall i :: 0 <= i < |users| ==> SameAccount(env, users[i], tokens[i], users'[i], tokens'[i])
    ensures UsersOk(env, users') && AccountsOk(users', tokens') && Extends(users, users')
  {
    hide UserChecks;
    forall u | u in users
      ensures exists v :: v in users' && v.id == u.id && (u.confirmedAt.Some? ==> v.confirmedAt == u.confirmedAt)
    {
      var i :| 0 <= i < |users| && users[i] == u;
      assert users'[i] in users' && SameAccount(env, users[i], tokens[i], users'[i], tokens'[i]);
    }
  }

  lemma ConfirmKeepsAccounts(env: Env, db: Db, now: Time, token: Uuid)
    requires UsersOk(env, db.users) && AccountsOk(db.users, db.tokens)
    requires |Select(db.tokens, TokenLive(token, now))| == 1
    ensures var after := ConfirmWith(db, now, token).db;
            UsersOk(env, after.users) && AccountsOk(after.users, after.tokens) && Extends(db.users, after.users)
  {
    hide IsUtf8, CharLength, LengthWithin, ConfirmWith, Extends;
    var after := ConfirmWith(db, now, token).db;
    ConfirmLengths(db, now, token);
    forall i | 0 <= i < |db.users|
      ensures SameAccount(env, db.users[i], db.tokens[i], after.users[i], after.tokens[i])
    {
      ConfirmedAt(env, db, now, token, i);
      assert UserChecks(env, db.users[i]);
    }
    hide UsersOk, AccountsOk;
    RewrittenAccounts(env, db.users, db.tokens, after.users, after.tokens);
  }

  lemma ConfirmLengths(db: Db, now: Time, token: Uuid)
    ensures |ConfirmWith(db, now, token).db.users| == |db.users|
    ensures |ConfirmWith(db, now, token).db.tokens| == |db.tokens|
  {
  }

  lemma ConfirmKeeps(env: Env, db: Db, e: Entry, json: Option<Json.Value>)
    requires Valid(env, db)
    ensures Valid(env, ConfirmAccount(db, e, json).db)
  {
    hide Json.GetString, Parse, UsersOk, AccountsOk, SessionsOk, FavoritesOk, EventsOk, LikesOk, CommentsOk;
    var token := Json.GetString(json, "token", TEXT_LENGTH, TEXT_LENGTH);
    if token.Some? && Parse(token.value).Some? {
      var id := Parse(token.value).value;
      if |Select(db.tokens, TokenLive(id, e.moment.now))| == 1 {
        ConfirmKeepsAccounts(env, db, e.moment.now, id);
        OtherTablesSurvive(env, db, ConfirmAccount(db, e, json).db.users);
      }
    }
  }

  // ----- sessions -----

  lemma LoginKeeps(env: Env, db: Db, e: Entry, json: Option<Json.Value>)
    requires Valid(env, db)
    ensures Valid(env, SignIn(env, db, e, json).db)
  {
    hide IsUtf8, Email, IsEmail, Lower, Json.GetString, UsersOk, AccountsOk, FavoritesOk, EventsOk, LikesOk, CommentsOk;
    var after := SignIn(env, db, e, json).db;
    if after != db {
      var row := after.sessions[|db.sessions|];
      var found := Select(db.users, CanSignIn(env, Lower(Json.GetString(json, "email", 5, 254).value),
                                              Json.GetString(json, "password", 1, 256).value));
      assert found[0] in found;
      assert forall i :: 0 <= i < |db.sessions| ==> db.sessions[i] in db.sessions;
    }
  }

  lemma LogoutKeeps(env: Env, db: Db, e: Entry)
    requires Valid(env, db)
    ensures Valid(env, SignOut(db, e).db)
  {
    hide UsersOk, AccountsOk, FavoritesOk, EventsOk, LikesOk, CommentsOk, CallerOf, BearerToken;
    var after := SignOut(db, e).db;
    assert |after.sessions| == |db.sessions|;
    assert forall i :: 0 <= i < |db.sessions| ==>
             after.sessions[i].token == db.sessions[i].token && after.sessions[i].userId == db.sessions[i].userId;
  }

  // ----- favourites -----

  lemma FavoritesStayValid(users: seq<User>, rows: seq<Favorite>, user: Uuid, key: string, now: Time)
    requires FavoritesOk(users, rows) && RefersTo(users, Some(user)) && IsKey(key, 160)
    ensures FavoritesOk(users, Delete(rows, FavoriteIs(user, key)))
    ensures !Has(rows, FavoriteIs(user, key)) ==> FavoritesOk(users, rows + [Favorite(user, key, now)])
  {
    hide IsUtf8, CharLength, RefersTo;
    KeysAreAscii(key, 160);
    assert FavoriteChecks(Favorite(user, key, now));
    hide FavoriteChecks;
    DeleteKeepsPairs(rows, FavoriteIs(user, key), (a, b) => DifferentFavorites(a, b));
    var rest := Delete(rows, FavoriteIs(user, key));
    forall i | 0 <= i < |rest| ensures FavoriteChecks(rest[i]) && RefersTo(users, Some(rest[i].userId)) {
      assert rest[i] in rest;
    }
    if !Has(rows, FavoriteIs(user, key)) {
      assert forall i :: 0 <= i < |rows| ==> !FavoriteIs(user, key)(rows[i]);
    }
  }

  lemma FavoriteKeeps(env: Env, db: Db, e: Entry, kind: Kind, put: bool, key: string)
    requires Valid(env, db)
    ensures Valid(env, ChangeFavorite(db, e, kind, put, key).db)
  {
    hide UsersOk, AccountsOk, SessionsOk, FavoritesOk, EventsOk, LikesOk, CommentsOk, CallerOf, IsKey;
    if CallerOf(db, e.moment.authAt, e.request.authorization).SignedInAs? && IsKey(key, 160) {
      CallerIsUser(env, db, e.moment.authAt, e.request.authorization);
      FavoritesStayValid(db.users, db.Favorites(kind),
                         CallerOf(db, e.moment.authAt, e.request.authorization).user.id, key, e.moment.now);
    }
  }

  // ----- events, likes, comments -----

  lemma AppendKeepsEvents(db: Db, event: Event)
    requires EventsOk(db.users, db.events, db.nextEvent)
    requires event.id == db.nextEvent && EventChecks(event) && RefersTo(db.users, event.userId)
    ensures EventsOk(db.users, db.events + [event], db.nextEvent + 1)
  {
    hide EventChecks, RefersTo;
  }

  lemma ActivityKeeps(env: Env, db: Db, e: Entry, json: Option<Json.Value>)
    requires Valid(env, db)
    ensures Valid(env, RecordActivity(env, db, e, json).db)
  {
    hide IsUtf8, Json.GetString, IsKey, EventType, UsersOk, AccountsOk, SessionsOk, FavoritesOk, EventsOk, LikesOk,
         CommentsOk, ActorOf, EventChecks;
    var after := RecordActivity(env, db, e, json).db;
    if after != db {
      KnownActorsAreReal(env, db, e, json);
      var event := after.events[|db.events|];
      var actor := ActorOf(db, e.moment.authAt, e.request.authorization, json).actor;
      ListedTypesAreText(event.eventType);
      EventsAreAccepted(db, e.moment.now, actor, event.portalKey, event.eventType, event.contentId,
                        event.componentId, event.pageUrl, event.eventData);
      AppendKeepsEvents(db, event);
    }
  }

  lemma RowIsLikeOf(row: LikeRow, actor: Actor)
    requires actor.Valid() && row.userId == actor.UserId() && row.anonymousId == actor.AnonymousId()
             && row.actorKey == actor.Key()
    ensures HasActor(row) && LikeChecks(row)
  {
    assert IsLikeOf(row, actor);
  }

  lemma LikesStayValid(users: seq<User>, likes: seq<LikeRow>, next: nat, contentId: string, actor: Actor, now: Time)
    requires LikesOk(users, likes, next) && actor.Valid() && RefersTo(users, actor.UserId())
    ensures LikesOk(users, Delete(likes, LikeIs(contentId, actor.Key())), next)
    ensures LikesOk(users, likes, next + 1)
    ensures !Has(likes, LikeIs(contentId, actor.Key())) ==>
              var row := LikeRow(next, contentId, actor.UserId(), actor.AnonymousId(), actor.Key(), now);
              LikesOk(users, likes + [row], next + 1)
  {
    hide RefersTo, Actor.Key, Actor.Valid, IsLikeOf;
    DeleteKeepsPairs(likes, LikeIs(contentId, actor.Key()), (a, b) => DifferentLikes(a, b));
    var rest := Delete(likes, LikeIs(contentId, actor.Key()));
    forall i | 0 <= i < |rest|
      ensures rest[i].id < next && LikeChecks(rest[i]) && RefersTo(users, rest[i].userId)
      ensures HasActor(rest[i])
    {
      assert rest[i] in rest;
      var k :| 0 <= k < |likes| && likes[k] == rest[i];
    }
    if !Has(likes, LikeIs(contentId, actor.Key())) {
      var row := LikeRow(next, contentId, actor.UserId(), actor.AnonymousId(), actor.Key(), now);
      assert forall i :: 0 <= i < |likes| ==> !LikeIs(contentId, actor.Key())(likes[i]);
      RowIsLikeOf(row, actor);
    }
  }

  lemma LikeKeeps(env: Env, db: Db, e: Entry, put: bool, contentId: string, json: Option<Json.Value>)
    requires Valid(env, db)
    ensures Valid(env, ChangeLike(db, e, put, contentId, json).db)
  {
    hide IsUtf8, Json.GetString, IsKey, UsersOk, AccountsOk, SessionsOk, FavoritesOk, EventsOk, LikesOk, CommentsOk,
         ActorOf, EventChecks, Actor.Key, Actor.Valid, RefersTo;
    if ActorOf(db, e.moment.authAt, e.request.authorization, json).Known? {
      KnownActorsAreReal(env, db, e, json);
      var actor := ActorOf(db, e.moment.authAt, e.request.authorization, json).actor;
      var portal := Json.GetString(json, "portal_key", 1, 120);
      LikesStayValid(db.users, db.likes, db.nextLike, contentId, actor, e.moment.now);
      if portal.Some? && IsKey(portal.value, 120) {
        var event := NewEvent(db, e.moment.now, actor, portal.value, "like", Some(contentId), None, None, "{}");
        EventsAreAccepted(db, e.moment.now, actor, portal.value, "like", Some(contentId), None, None, "{}");
        AppendKeepsEvents(db, event);
      }
    }
  }

  lemma CommentKeeps(env: Env, db: Db, e: Entry, contentId: string, json: Option<Json.Value>)
    requires Valid(env, db)
    ensures Valid(env, AddComment(db, e, contentId, json).db)
  {
    hide IsUtf8, CharLength, Json.GetString, IsKey, UsersOk, AccountsOk, SessionsOk, FavoritesOk, EventsOk, LikesOk,
         ActorOf, EventChecks, Actor.Valid, RefersTo;
    var after := AddComment(db, e, contentId, json).db;
    if after != db {
      KnownActorsAreReal(env, db, e, json);
      var row, event := after.comments[|db.comments|], after.events[|db.events|];
      var actor := ActorOf(db, e.moment.authAt, e.request.authorization, json).actor;
      ByteBoundsBoundCharacters(row.body);
      EventsAreAccepted(db, e.moment.now, actor, event.portalKey, "comment", Some(contentId), None, None, "{}");
      AppendKeepsEvents(db, event);
      assert CommentChecks(row);
      hide CommentChecks;
      assert forall i :: 0 <= i < |db.comments| ==> !CommentIs(row.id)(db.comments[i]);
    }
  }

  // ----- any request, any run -----

  lemma ServeKeepsValid(env: Env, db: Db, e: Entry, route: Route, json: Option<Json.Value>)
    requires Valid(env, db)
    ensures Valid(env, Serve(env, db, e, route, json).db)
  {
    hide Valid, RegisterAccount, ConfirmAccount, SignIn, SignOut, ChangeFavorite, RecordActivity, ChangeLike,
         AddComment;
    match route
    case Register => RegisterKeeps(env, db, e, json);
    case Confirm => ConfirmKeeps(env, db, e, json);
    case Login => LoginKeeps(env, db, e, json);
    case CloseSession => LogoutKeeps(env, db, e);
    case FavoriteChange(kind, put, key) => FavoriteKeeps(env, db, e, kind, put, key);
    case Activity => ActivityKeeps(env, db, e, json);
    case Like(put, contentId) => LikeKeeps(env, db, e, put, contentId, json);
    case Comment(contentId) => CommentKeeps(env, db, e, contentId, json);
    case _ =>
  }

  lemma StepKeepsValid(env: Env, db: Db, e: Entry)
    requires Valid(env, db)
    ensures Valid(env, Step(env, db, e).db)
  {
    hide Valid, Serve;
    var body := Upload.Concat(e.request.chunks);
    ServeKeepsValid(env, db, e, RouteOf(e), JsonOf(env, e, body));
  }

  /** Every reachable state meets every constraint. */
  lemma {:induction false} RunIsValid(env: Env, h: seq<Entry>)
    ensures Valid(env, Run(env, h))
  {
    if h != [] {
      RunIsValid(env, h[..|h| - 1]);
      StepKeepsValid(env, Run(env, h[..|h| - 1]), h[|h| - 1]);
    }
  }
}
