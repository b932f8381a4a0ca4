/** What accepted events, likes, comments and favourites leave in the tables, field by field, and
    when they are accepted. */
module Contributions {
  import opened Options
  import opened Text
  import opened Uuids
  import opened Tables
  import opened Schema
  import opened Router
  import opened Sql
  import opened Service
  import opened Effects
  import opened Answers
  import Favorites
  import Json
  import Sorting
  import Validation

  // ----- columns -----

  function UserColumn(a: Actor): Option<Uuid> {
    match a
    case Account(id) => Some(id)
    case Visitor(_) => None
  }

  function VisitorColumn(a: Actor): Option<string> {
    match a
    case Account(_) => None
    case Visitor(id) => Some(id)
  }

  function ActorColumn(a: Actor): string {
    match a
    case Account(id) => "u:" + Print(id)
    case Visitor(id) => "a:" + id
  }

  lemma ColumnsOf(a: Actor)
    ensures a.UserId() == UserColumn(a) && a.AnonymousId() == VisitorColumn(a) && a.Key() == ActorColumn(a)
  {
  }

  /** An optional text of the object; an empty one counts as none. */
  function Given(json: Option<Json.Value>, key: string, maximum: nat): Option<string> {
    match Json.GetString(json, key, 0, maximum)
    case None => None
    case Some(text) => if text == "" then None else Some(text)
  }

  predicate Storable(text: Option<string>) {
    text.None? || IsUtf8(text.value)
  }

  lemma GivenIsNullIfEmpty(json: Option<Json.Value>, key: string, maximum: nat)
    ensures Given(json, key, maximum) == NullIfEmpty(TextOr(Json.GetOptionalString(json, key, maximum)))
    ensures Storable(Given(json, key, maximum)) <==> IsUtf8(TextOr(Json.GetOptionalString(json, key, maximum)))
  {
    hide Json.GetString;
  }

  /** The text of the "event_data" object, "{}" when the field is missing, nothing when it is no object. */
  function DataText(json: Option<Json.Value>): Option<string> {
    if json.Some? && json.value.Object? && "event_data" in json.value.fields then
      var data := json.value.fields["event_data"];
      if data.Object? then Some(data.text) else None
    else Some("{}")
  }

  lemma DataIsEventData(json: Option<Json.Value>)
    ensures DataText(json) == EventData(json)
  {
  }

  /** The actor of an accepted request. */
  lemma WhoActed(env: Env, db: Db, e: Entry, json: Option<Json.Value>) returns (actor: Actor)
    requires Valid(env, db) && ActorOf(db, e.moment.authAt, e.request.authorization, json).Known?
    ensures ActorOf(db, e.moment.authAt, e.request.authorization, json) == Known(actor)
    ensures ActsAs(db, e, json, actor)
  {
    hide ActorOf, ActsAs, Valid;
    ActorIsWhoActs(env, db, e, json);
    actor := ActorOf(db, e.moment.authAt, e.request.authorization, json).actor;
  }

  function KeyField(env: Env, e: Entry): Option<string> {
    Json.GetString(JsonFor(env, e), "portal_key", 1, 120)
  }

  predicate GoodPortal(portal: Option<string>) {
    portal.Some? && Validation.IsKey(portal.value, 120)
  }

  // ----- POST /activity -----

  const KINDS := {"page_view", "content_view", "component_click", "like", "comment"}

  lemma ActivityIsAnswered(env: Env, db: Db, e: Entry)
    requires Valid(env, db) && Reached(env, e) && RouteOf(e) == Activity
    ensures var json := JsonFor(env, e);
            var kind := Json.GetString(json, "event_type", 1, 40);
            ReplyTo(env, db, e) ==
            if !GoodPortal(KeyField(env, e)) || kind.None? || kind.value !in KINDS then
              Response(400, Error("validation_error"))
            else if forall a: Actor :: !ActsAs(db, e, json, a) then NobodyReply(e.request.authorization)
            else if DataText(json).None? then Response(400, Error("validation_error"))
            else if
              && Storable(Given(json, "content_id", 300)) && Storable(Given(json, "component_id", 300))
              && Storable(Given(json, "page_url", 2000)) && IsUtf8(DataText(json).value)
              && env.jsonb(DataText(json).value)
            then Response(201, EventRecorded(db.nextEvent))
            else Response(500, Error("database_error"))
  {
    hide Step, Recognise, Reached, JsonFor, ActorOf, ActsAs, Valid, IsUtf8, Validation.IsKey, Json.GetString,
         Json.GetOptionalString, Given, Storable, DataText, EventData;
    StepIsServe(env, db, e);
    var json := JsonFor(env, e);
    ActorIsWhoActs(env, db, e, json);
    GivenIsNullIfEmpty(json, "content_id", 300);
    GivenIsNullIfEmpty(json, "component_id", 300);
    GivenIsNullIfEmpty(json, "page_url", 2000);
    DataIsEventData(json);
  }

  /** One event is appended: the fields of the request, the columns of its actor, the time of the request. */
  lemma ActivityIsRecorded(env: Env, db: Db, e: Entry) returns (actor: Actor)
    requires Valid(env, db) && IsActivity(env, db, e)
    ensures ActsAs(db, e, JsonFor(env, e), actor)
    ensures var json := JsonFor(env, e);
            var portal, kind := KeyField(env, e), Json.GetString(json, "event_type", 1, 40);
            && portal.Some? && kind.Some? && DataText(json).Some?
            && After(env, db, e).events == db.events +
                 [Event(db.nextEvent, UserColumn(actor), VisitorColumn(actor), portal.value, kind.value,
                        Given(json, "content_id", 300), Given(json, "component_id", 300), Given(json, "page_url", 2000),
                        DataText(json).value, e.moment.now, e.moment.now)]
            && ReplyTo(env, db, e) == Response(201, EventRecorded(db.nextEvent))
  {
    hide Step, Recognise, Reached, JsonFor, RecordActivity, ActorOf, ActsAs, Valid, DataText, Given, Json.GetString,
         UserColumn, VisitorColumn;
    StepIsServe(env, db, e);
    var json := JsonFor(env, e);
    ActorRefusals(db, e.moment.authAt, e.request.authorization, json);
    RecordedByActor(env, db, e, json);
    actor := WhoActed(env, db, e, json);
    RecordedEvent(env, db, e, json, actor);
  }

  lemma RecordedByActor(env: Env, db: Db, e: Entry, json: Option<Json.Value>)
    requires RecordActivity(env, db, e, json).response.status == 201
    ensures ActorOf(db, e.moment.authAt, e.request.authorization, json).Known?
  {
    hide ActorOf, IsUtf8, Validation.IsKey, Json.GetString, EventData;
    ActorRefusals(db, e.moment.authAt, e.request.authorization, json);
  }

  lemma RecordedEvent(env: Env, db: Db, e: Entry, json: Option<Json.Value>, actor: Actor)
    requires RecordActivity(env, db, e, json).response.status == 201
    requires ActorOf(db, e.moment.authAt, e.request.authorization, json) == Known(actor)
    ensures var portal, kind := Json.GetString(json, "portal_key", 1, 120), Json.GetString(json, "event_type", 1, 40);
            && portal.Some? && kind.Some? && DataText(json).Some?
            && RecordActivity(env, db, e, json).db.events == db.events +
                 [Event(db.nextEvent, UserColumn(actor), VisitorColumn(actor), portal.value, kind.value,
                        Given(json, "content_id", 300), Given(json, "component_id", 300), Given(json, "page_url", 2000),
                        DataText(json).value, e.moment.now, e.moment.now)]
            && RecordActivity(env, db, e, json).response == Response(201, EventRecorded(db.nextEvent))
  {
    hide ActorOf, IsUtf8, Validation.IsKey, Json.GetString, Json.GetOptionalString, Given, Storable, DataText,
         EventData, NullIfEmpty;
    ColumnsOf(actor);
    GivenIsNullIfEmpty(json, "content_id", 300);
    GivenIsNullIfEmpty(json, "component_id", 300);
    GivenIsNullIfEmpty(json, "page_url", 2000);
    DataIsEventData(json);
  }

  // ----- PUT and DELETE /content/{id}/like -----

  /** A like needs a portal, taking it back does not. */
  lemma LikeIsAnswered(env: Env, db: Db, e: Entry)
    requires Valid(env, db) && Reached(env, e) && RouteOf(e).Like?
    ensures ReplyTo(env, db, e) ==
            if !Validation.IsKey(RouteOf(e).contentId, 300) then Response(400, Error("validation_error"))
            else if forall a: Actor :: !ActsAs(db, e, JsonFor(env, e), a) then NobodyReply(e.request.authorization)
            else if RouteOf(e).put && !GoodPortal(KeyField(env, e)) then Response(400, Error("validation_error"))
            else Response(204, Nothing)
  {
    hide Step, Recognise, Reached, JsonFor, ActorOf, ActsAs, Valid, Validation.IsKey, Json.GetString, LikeApplied;
    StepIsServe(env, db, e);
    ActorIsWhoActs(env, db, e, JsonFor(env, e));
  }

  predicate IsLikeBy(l: LikeRow, contentId: string, actor: Actor) {
    l.contentId == contentId && l.actorKey == ActorColumn(actor)
  }

  /** A first like adds its row and one event, a repeated one nothing; taking a like back removes
      the actor's row on this content, no other row, and no event. */
  lemma LikeTakesEffect(env: Env, db: Db, e: Entry) returns (actor: Actor)
    requires Valid(env, db) && IsLikeChange(env, db, e)
    ensures ActsAs(db, e, JsonFor(env, e), actor)
    ensures var (id, portal, after) := (RouteOf(e).contentId, KeyField(env, e), After(env, db, e));
            if !RouteOf(e).put then
              && after.events == db.events
              && forall l :: l in after.likes <==> l in db.likes && !IsLikeBy(l, id, actor)
            else if exists l :: l in db.likes && IsLikeBy(l, id, actor) then
              after.likes == db.likes && after.events == db.events
            else
              && portal.Some?
              && after.likes == db.likes +
                   [LikeRow(db.nextLike, id, UserColumn(actor), VisitorColumn(actor), ActorColumn(actor), e.moment.now)]
              && after.events == db.events +
                   [Event(db.nextEvent, UserColumn(actor), VisitorColumn(actor), portal.value, "like", Some(id), None,
                          None, "{}", e.moment.now, e.moment.now)]
  {
    hide Step, Recognise, Reached, JsonFor, ActorOf, ActsAs, Valid, Json.GetString, LikeApplied, ChangeLike, IsLikeBy,
         UserColumn, VisitorColumn, ActorColumn;
    StepIsServe(env, db, e);
    var json := JsonFor(env, e);
    ChangedByActor(db, e, RouteOf(e).put, RouteOf(e).contentId, json);
    actor := WhoActed(env, db, e, json);
    LikeRows(db, e.moment.now, RouteOf(e).put, RouteOf(e).contentId, actor, TextOr(KeyField(env, e)));
  }

  lemma ChangedByActor(db: Db, e: Entry, put: bool, id: string, json: Option<Json.Value>)
    requires ChangeLike(db, e, put, id, json).response.status == 204
    ensures var portal := Json.GetString(json, "portal_key", 1, 120);
            var who := ActorOf(db, e.moment.authAt, e.request.authorization, json);
            && who.Known? && (put ==> portal.Some?)
            && ChangeLike(db, e, put, id, json).db == LikeApplied(db, e.moment.now, put, id, who.actor, TextOr(portal))
  {
    hide ActorOf, LikeApplied, Validation.IsKey, Json.GetString;
    ActorRefusals(db, e.moment.authAt, e.request.authorization, json);
  }

  lemma LikeRows(db: Db, now: Time, put: bool, id: string, actor: Actor, portal: string)
    ensures var after := LikeApplied(db, now, put, id, actor, portal);
            if !put then
              && after.events == db.events
              && forall l :: l in after.likes <==> l in db.likes && !IsLikeBy(l, id, actor)
            else if exists l :: l in db.likes && IsLikeBy(l, id, actor) then
              after.likes == db.likes && after.events == db.events
            else
              && after.likes == db.likes +
                   [LikeRow(db.nextLike, id, UserColumn(actor), VisitorColumn(actor), ActorColumn(actor), now)]
              && after.events == db.events +
                   [Event(db.nextEvent, UserColumn(actor), VisitorColumn(actor), portal, "like", Some(id), None, None,
                          "{}", now, now)]
  {
    ColumnsOf(actor);
    hide UserColumn, VisitorColumn, ActorColumn, Actor.Key, Actor.UserId, Actor.AnonymousId;
  }

  // ----- POST /content/{id}/comments -----

  lemma CommentIsAnswered(env: Env, db: Db, e: Entry)
    requires Valid(env, db) && Reached(env, e) && RouteOf(e).Comment?
    ensures var json := JsonFor(env, e);
            var body := Json.GetString(json, "body", 1, 5000);
            ReplyTo(env, db, e) ==
            if !Validation.IsKey(RouteOf(e).contentId, 300) || !GoodPortal(KeyField(env, e)) || body.None? then
              Response(400, Error("validation_error"))
            else if forall a: Actor :: !ActsAs(db, e, json, a) then NobodyReply(e.request.authorization)
            else if
              && IsUtf8(body.value) && Storable(Given(json, "author_name", 100))
              && forall c :: c in db.comments ==> c.id != e.moment.commentId
            then Response(201, Commented(e.moment.commentId, e.moment.now))
            else Response(500, Error("database_error"))
  {
    hide Step, Recognise, Reached, JsonFor, ActorOf, ActsAs, Valid, IsUtf8, Validation.IsKey, Json.GetString,
         Json.GetOptionalString, Given, Storable;
    StepIsServe(env, db, e);
    ActorIsWhoActs(env, db, e, JsonFor(env, e));
    GivenIsNullIfEmpty(JsonFor(env, e), "author_name", 100);
  }

  /** One comment row and one event, both for the content of the path and the actor of the request. */
  lemma CommentIsStored(env: Env, db: Db, e: Entry) returns (actor: Actor)
    requires Valid(env, db) && IsComment(env, db, e)
    ensures ActsAs(db, e, JsonFor(env, e), actor)
    ensures var (json, id, now) := (JsonFor(env, e), RouteOf(e).contentId, e.moment.now);
            var body := Json.GetString(json, "body", 1, 5000);
            && body.Some? && KeyField(env, e).Some?
            && After(env, db, e).comments == db.comments +
                 [CommentRow(e.moment.commentId, id, UserColumn(actor), VisitorColumn(actor),
                             Given(json, "author_name", 100), body.value, now)]
            && After(env, db, e).events == db.events +
                 [Event(db.nextEvent, UserColumn(actor), VisitorColumn(actor), KeyField(env, e).value, "comment",
                        Some(id), None, None, "{}", now, now)]
            && ReplyTo(env, db, e) == Response(201, Commented(e.moment.commentId, now))
  {
    hide Step, Recognise, Reached, JsonFor, ActorOf, ActsAs, Valid, Json.GetString, AddComment, Given, UserColumn,
         VisitorColumn;
    StepIsServe(env, db, e);
    var json := JsonFor(env, e);
    StoredByActor(db, e, RouteOf(e).contentId, json);
    actor := WhoActed(env, db, e, json);
    StoredComment(db, e, RouteOf(e).contentId, json, actor);
  }

  lemma StoredByActor(db: Db, e: Entry, id: string, json: Option<Json.Value>)
    requires AddComment(db, e, id, json).response.status == 201
    ensures ActorOf(db, e.moment.authAt, e.request.authorization, json).Known?
  {
    hide ActorOf, IsUtf8, Validation.IsKey, Json.GetString, Has;
    ActorRefusals(db, e.moment.authAt, e.request.authorization, json);
  }

  lemma StoredComment(db: Db, e: Entry, id: string, json: Option<Json.Value>, actor: Actor)
    requires AddComment(db, e, id, json).response.status == 201
    requires ActorOf(db, e.moment.authAt, e.request.authorization, json) == Known(actor)
    ensures var body, portal := Json.GetString(json, "body", 1, 5000), Json.GetString(json, "portal_key", 1, 120);
            var (after, now) := (AddComment(db, e, id, json).db, e.moment.now);
            && body.Some? && portal.Some?
            && after.comments == db.comments +
                 [CommentRow(e.moment.commentId, id, UserColumn(actor), VisitorColumn(actor),
                             Given(json, "author_name", 100), body.value, now)]
            && after.events == db.events +
                 [Event(db.nextEvent, UserColumn(actor), VisitorColumn(actor), portal.value, "comment", Some(id), None,
                        None, "{}", now, now)]
            && AddComment(db, e, id, json).response == Response(201, Commented(e.moment.commentId, now))
  {
    hide ActorOf, IsUtf8, Validation.IsKey, Json.GetString, Json.GetOptionalString, Given, NullIfEmpty, Has;
    ColumnsOf(actor);
    GivenIsNullIfEmpty(json, "author_name", 100);
  }

  // ----- favourites -----

  function TableOf(db: Db, kind: Kind): seq<Favorite> {
    match kind
    case Section => db.sections
    case Tag => db.tags
  }

  lemma FavoriteIsAnswered(env: Env, db: Db, e: Entry)
    requires Valid(env, db) && Reached(env, e) && RouteOf(e).FavoriteChange?
    ensures ReplyTo(env, db, e) ==
            if forall u :: !SignedInBy(db, e.moment.authAt, e.request.authorization, u) then
              Response(401, Error("unauthorized"))
            else if !Validation.IsKey(RouteOf(e).key, 160) then Response(400, Error("validation_error"))
            else Response(204, Nothing)
  {
    hide Step, Recognise, Reached, JsonFor, CallerOf, SignedInBy, Valid, Validation.IsKey;
    StepIsServe(env, db, e);
    SomebodyIsSignedIn(env, db, e);
  }

  lemma SomebodyIsSignedIn(env: Env, db: Db, e: Entry)
    requires Valid(env, db)
    ensures CallerOf(db, e.moment.authAt, e.request.authorization).SignedInAs? <==>
            exists u :: SignedInBy(db, e.moment.authAt, e.request.authorization, u)
    ensures CallerOf(db, e.moment.authAt, e.request.authorization).SignedInAs? ==>
            SignedInBy(db, e.moment.authAt, e.request.authorization,
                       CallerOf(db, e.moment.authAt, e.request.authorization).user)
  {
    hide CallerOf, SignedInBy, Valid;
    CallerIsSignedIn(env, db, e.moment.authAt, e.request.authorization);
    var caller := CallerOf(db, e.moment.authAt, e.request.authorization);
    assert caller.SignedInAs? ==> SignedInBy(db, e.moment.authAt, e.request.authorization, caller.user);
  }

  /** PUT adds the key to the caller's set of this kind unless it is there, DELETE removes it; the
      other kind and the other users keep theirs. */
  lemma FavoriteTakesEffect(env: Env, db: Db, e: Entry) returns (u: User)
    requires Valid(env, db) && IsFavoriteChange(env, db, e)
    ensures SignedInBy(db, e.moment.authAt, e.request.authorization, u)
    ensures var (kind, put, key) := (RouteOf(e).kind, RouteOf(e).put, RouteOf(e).key);
            var before, after := TableOf(db, kind), TableOf(After(env, db, e), kind);
            if !put then forall f :: f in after <==> f in before && !(f.userId == u.id && f.key == key)
            else if exists f :: f in before && f.userId == u.id && f.key == key then after == before
            else after == before + [Favorite(u.id, key, e.moment.now)]
    ensures RouteOf(e).kind == Section ==> After(env, db, e).tags == db.tags
    ensures RouteOf(e).kind == Tag ==> After(env, db, e).sections == db.sections
  {
    hide Step, Recognise, Reached, JsonFor, CallerOf, SignedInBy, Valid, Validation.IsKey;
    StepIsServe(env, db, e);
    SomebodyIsSignedIn(env, db, e);
    u := CallerOf(db, e.moment.authAt, e.request.authorization).user;
  }

  /** A list is the ascending listing, each key once, of what the caller has stored of this kind. */
  lemma FavoriteListIsAnswered(env: Env, db: Db, e: Entry, u: User)
    requires env.Lawful() && Valid(env, db) && Reached(env, e) && RouteOf(e).FavoriteList?
    ensures (forall v :: !SignedInBy(db, e.moment.authAt, e.request.authorization, v)) ==>
              ReplyTo(env, db, e) == Response(401, Error("unauthorized"))
    ensures SignedInBy(db, e.moment.authAt, e.request.authorization, u) ==>
              var reply := ReplyTo(env, db, e);
              && reply.status == 200 && reply.payload.Keys?
              && (forall i, j :: 0 <= i < j < |reply.payload.keys| ==>
                    env.collate(reply.payload.keys[i], reply.payload.keys[j]))
              && forall k :: k in reply.payload.keys <==>
                   exists f :: f in TableOf(db, RouteOf(e).kind) && f.userId == u.id && f.key == k
  {
    hide CallerOf, SignedInBy, Valid, ReplyTo, Reached, Recognise, Sorting.Sorted, StrictTotalOrder, Has;
    var kind := RouteOf(e).kind;
    SomebodyIsSignedIn(env, db, e);
    CallerIsSignedIn(env, db, e.moment.authAt, e.request.authorization);
    if SignedInBy(db, e.moment.authAt, e.request.authorization, u) {
      Favorites.ListReply(env, db, e, kind, u);
      ListedKeys(env, db, kind, u.id);
    } else if !CallerOf(db, e.moment.authAt, e.request.authorization).SignedInAs? {
      UnlistedReply(env, db, e);
    }
  }

  lemma UnlistedReply(env: Env, db: Db, e: Entry)
    requires Reached(env, e) && RouteOf(e).FavoriteList?
    requires !CallerOf(db, e.moment.authAt, e.request.authorization).SignedInAs?
    ensures ReplyTo(env, db, e) == Response(401, Error("unauthorized"))
  {
    StepIsServe(env, db, e);
    hide Step, Recognise, Reached, JsonFor, CallerOf;
  }

  lemma ListedKeys(env: Env, db: Db, kind: Kind, user: Uuid)
    requires env.Lawful() && Valid(env, db)
    ensures var keys := Sorting.Sorted(KeysOf(Select(db.Favorites(kind), FavoriteOf(user))), env.collate);
            && (forall i, j :: 0 <= i < j < |keys| ==> env.collate(keys[i], keys[j]))
            && forall k :: k in keys <==> exists f :: f in TableOf(db, kind) && f.userId == user && f.key == k
  {
    hide UsersOk, AccountsOk, SessionsOk, EventsOk, LikesOk, CommentsOk, StrictTotalOrder, Sorting.Sorted, FavoritesOk;
    Favorites.FavoriteKeysAreDistinct(db.users, db.Favorites(kind), user);
    Sorting.SortedIsSorted(KeysOf(Select(db.Favorites(kind), FavoriteOf(user))), env.collate);
  }

  // ----- from the wire to the table -----

  /** A visitor takes a like back with a DELETE that carries the "anonymous_id" and nothing else: it is
      accepted whatever stood before, and afterwards the visitor's like of this content is gone. */
  lemma VisitorTakesLikeBack(env: Env, db: Db, e: Entry, id: string, visitor: string, body: Json.Value)
    requires Valid(env, db)
    requires e.request.verb == "DELETE" && e.request.url == "/content/" + id + "/like"
    requires e.request.authorization == None
    requires Validation.IsKey(id, 300) && Validation.IsAnonymousId(visitor)
    requires 0 < |BodyOf(e)| <= 1_048_576 && env.tokener(BodyOf(e)) == Json.Parsed(true, Some(body), |BodyOf(e)|)
    requires body.Object? && "anonymous_id" in body.fields && body.fields["anonymous_id"] == Json.Str(visitor)
    ensures ReplyTo(env, db, e) == Response(204, Nothing)
    ensures forall l :: l in After(env, db, e).likes <==>
              l in db.likes && !(l.contentId == id && l.actorKey == "a:" + visitor)
  {
    hide Valid, ReplyTo, After, Recognise, JsonFor, Reached, ActsAs, BodyOf, Validation.IsKey, Json.GetString;
    VisitorArrives(env, e, id, visitor, body);
    VisitorActs(db, e, JsonFor(env, e), visitor, Visitor(visitor));
    LikeIsAnswered(env, db, e);
    var actor := LikeTakesEffect(env, db, e);
    VisitorActs(db, e, JsonFor(env, e), visitor, actor);
  }

  lemma VisitorActs(db: Db, e: Entry, json: Option<Json.Value>, visitor: string, actor: Actor)
    requires e.request.authorization == None && Json.GetString(json, "anonymous_id", 0, 200) == Some(visitor)
    requires Validation.IsAnonymousId(visitor)
    ensures ActsAs(db, e, json, actor) <==> actor == Visitor(visitor)
  {
    hide Json.GetString, Validation.IsAnonymousId;
  }

  lemma VisitorArrives(env: Env, e: Entry, id: string, visitor: string, body: Json.Value)
    requires e.request.verb == "DELETE" && e.request.url == "/content/" + id + "/like"
    requires Validation.IsKey(id, 300) && Validation.IsAnonymousId(visitor)
    requires 0 < |BodyOf(e)| <= 1_048_576 && env.tokener(BodyOf(e)) == Json.Parsed(true, Some(body), |BodyOf(e)|)
    requires body.Object? && "anonymous_id" in body.fields && body.fields["anonymous_id"] == Json.Str(visitor)
    ensures Reached(env, e) && RouteOf(e) == Like(false, id)
    ensures Json.GetString(JsonFor(env, e), "anonymous_id", 0, 200) == Some(visitor)
  {
    hide Recognise, BodyOf, JsonFor, Reached, Step, Json.GetString, Validation.IsAnonymousId;
    ParameterEndpoints(false, "", id);
    ObjectIsSeen(env, e, body);
    UploadIsJudged(env, EMPTY, e);
    VisitorIsRead(JsonFor(env, e), visitor, body);
  }

  lemma VisitorIsRead(json: Option<Json.Value>, visitor: string, body: Json.Value)
    requires json == Some(body) && body.Object? && "anonymous_id" in body.fields
    requires body.fields["anonymous_id"] == Json.Str(visitor) && Validation.IsAnonymousId(visitor)
    ensures Json.GetString(json, "anonymous_id", 0, 200) == Some(visitor)
  {
    Validation.KeyRule(visitor, 200);
    Json.StringIsRead(json, "anonymous_id", 0, 200, visitor);
  }
}
