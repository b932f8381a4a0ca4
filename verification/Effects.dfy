/** Which tables a request can touch, and how its reply tells whether it did. */
module Effects {
  import opened Options
  import opened Text
  import opened Uuids
  import opened Tables
  import opened Schema
  import opened Router
  import opened Service
  import Json
  import Upload

  function BodyOf(e: Entry): string {
    Upload.Concat(e.request.chunks)
  }

  /** The JSON object that the handler of this request looks at. */
  function JsonFor(env: Env, e: Entry): Option<Json.Value> {
    JsonOf(env, e, BodyOf(e))
  }

  function ReplyTo(env: Env, db: Db, e: Entry): Response {
    Step(env, db, e).response
  }

  function After(env: Env, db: Db, e: Entry): Db {
    Step(env, db, e).db
  }

  /** The request reached its handler. */
  predicate Reached(env: Env, e: Entry) {
    |BodyOf(e)| <= Upload.RequestBody.MAX_BODY_SIZE &&
    (IgnoresBody(RouteOf(e)) || !ExpectsBody(e.request.verb, BodyOf(e)) || JsonFor(env, e).Some?)
  }

  lemma StepIsServe(env: Env, db: Db, e: Entry)
    ensures if Reached(env, e) then Step(env, db, e) == Serve(env, db, e, RouteOf(e), JsonFor(env, e))
            else Step(env, db, e).db == db && ReplyTo(env, db, e).status in {400, 413}
    ensures !Reached(env, e) ==> ReplyTo(env, db, e).payload.Error?
  {
    hide Serve, Recognise;
  }

  // ----- accepted requests of each kind, read off the request and its reply -----

  predicate IsRegistration(env: Env, db: Db, e: Entry) {
    RouteOf(e) == Register && ReplyTo(env, db, e).status == 201
  }

  predicate IsConfirmation(env: Env, db: Db, e: Entry) {
    RouteOf(e) == Confirm && ReplyTo(env, db, e).status == 200
  }

  predicate IsLogin(env: Env, db: Db, e: Entry) {
    RouteOf(e) == Login && ReplyTo(env, db, e).status == 200
  }

  predicate IsLogout(env: Env, db: Db, e: Entry) {
    RouteOf(e) == CloseSession && ReplyTo(env, db, e).status == 204
  }

  predicate IsFavoriteChange(env: Env, db: Db, e: Entry) {
    RouteOf(e).FavoriteChange? && ReplyTo(env, db, e).status == 204
  }

  predicate IsActivity(env: Env, db: Db, e: Entry) {
    RouteOf(e) == Activity && ReplyTo(env, db, e).status == 201
  }

  predicate IsLikeChange(env: Env, db: Db, e: Entry) {
    RouteOf(e).Like? && ReplyTo(env, db, e).status == 204
  }

  predicate IsComment(env: Env, db: Db, e: Entry) {
    RouteOf(e).Comment? && ReplyTo(env, db, e).status == 201
  }

  // ----- frames of the single routes -----

  lemma RegisterFrame(env: Env, db: Db, e: Entry, json: Option<Json.Value>)
    ensures var o := RegisterAccount(env, db, e, json);
            o.db == (if o.response.status == 201 then db.(users := o.db.users, tokens := o.db.tokens) else db)
  {
  }

  lemma ConfirmFrame(db: Db, e: Entry, json: Option<Json.Value>)
    ensures var o := ConfirmAccount(db, e, json);
            o.db == (if o.response.status == 200 then db.(users := o.db.users, tokens := o.db.tokens) else db)
  {
    hide Parse, Json.GetString, Select, Update;
  }

  lemma SessionFrame(env: Env, db: Db, e: Entry, json: Option<Json.Value>)
    ensures var o := SignIn(env, db, e, json);
            o.db == (if o.response.status == 200 then db.(sessions := o.db.sessions) else db)
    ensures var o := SignOut(db, e);
            o.db == (if o.response.status == 204 then db.(sessions := o.db.sessions) else db)
  {
  }

  lemma FavoriteFrame(db: Db, e: Entry, kind: Kind, put: bool, key: string)
    ensures var o := ChangeFavorite(db, e, kind, put, key);
            o.db == (if o.response.status == 204 then db.WithFavorites(kind, o.db.Favorites(kind)) else db)
  {
  }

  lemma ActorRefusals(db: Db, at: Time, authorization: Option<string>, json: Option<Json.Value>)
    ensures var who := ActorOf(db, at, authorization, json);
            who.Unknown? ==> who.status in {400, 401}
  {
  }

  lemma ActivityFrame(env: Env, db: Db, e: Entry, json: Option<Json.Value>)
    ensures var o := RecordActivity(env, db, e, json);
            if o.response.status == 201
            then |o.db.events| == |db.events| + 1 && o.db == Append(db, o.db.events[|db.events|])
            else o.db == db
  {
    ActorRefusals(db, e.moment.authAt, e.request.authorization, json);
    hide ActorOf, IsUtf8;
  }

  lemma LikeFrame(db: Db, e: Entry, put: bool, contentId: string, json: Option<Json.Value>)
    ensures var o := ChangeLike(db, e, put, contentId, json);
            o.db == (if o.response.status == 204
                     then db.(likes := o.db.likes, nextLike := o.db.nextLike, events := o.db.events,
                              nextEvent := o.db.nextEvent)
                     else db)
  {
    ActorRefusals(db, e.moment.authAt, e.request.authorization, json);
    hide ActorOf;
  }

  lemma CommentFrame(db: Db, e: Entry, contentId: string, json: Option<Json.Value>)
    ensures var o := AddComment(db, e, contentId, json);
            if o.response.status == 201
            then
              && |o.db.events| == |db.events| + 1 && |o.db.comments| == |db.comments| + 1
              && o.db == Append(db.(comments := o.db.comments), o.db.events[|db.events|])
              && o.db.events[|db.events|].eventType == "comment"
            else o.db == db
  {
    ActorRefusals(db, e.moment.authAt, e.request.authorization, json);
    hide ActorOf, IsUtf8;
  }

  // ----- any request -----

  /** The event that an accepted comment appends. */
  lemma CommentEvent(env: Env, db: Db, e: Entry) returns (event: Event)
    requires IsComment(env, db, e)
    ensures After(env, db, e).events == db.events + [event] && event.eventType == "comment"
  {
    hide Step, Recognise, Reached, JsonFor, AddComment;
    StepIsServe(env, db, e);
    CommentFrame(db, e, RouteOf(e).contentId, JsonFor(env, e));
    event := After(env, db, e).events[|db.events|];
  }

  lemma ReadsFrame(env: Env, db: Db, e: Entry)
    requires RouteOf(e).Preflight? || RouteOf(e).Health? || RouteOf(e).TopContent? || RouteOf(e).FavoriteList?
             || RouteOf(e).ContentIdTooLong? || RouteOf(e).NotFound?
    ensures After(env, db, e) == db
  {
    StepIsServe(env, db, e);
    hide Recognise, Step;
  }

  /** Each table changes by its own accepted requests alone, and a reply that reports an error,
      4xx with 413 included or 5xx, reports no change at all. */
  lemma OnlyAcceptedRequestsChange(env: Env, db: Db, e: Entry)
    ensures !IsRegistration(env, db, e) && !IsConfirmation(env, db, e) ==>
              After(env, db, e).users == db.users && After(env, db, e).tokens == db.tokens
    ensures !IsLogin(env, db, e) && !IsLogout(env, db, e) ==> After(env, db, e).sessions == db.sessions
    ensures forall kind :: !(IsFavoriteChange(env, db, e) && RouteOf(e).kind == kind) ==>
              After(env, db, e).Favorites(kind) == db.Favorites(kind)
    ensures !IsLikeChange(env, db, e) ==> After(env, db, e).likes == db.likes
    ensures !IsLikeChange(env, db, e) && !IsActivity(env, db, e) && !IsComment(env, db, e) ==>
              After(env, db, e).events == db.events
    ensures !IsComment(env, db, e) ==> After(env, db, e).comments == db.comments
    ensures ReplyTo(env, db, e).status >= 400 ==> After(env, db, e) == db
  {
    hide Recognise, Step, RegisterAccount, ConfirmAccount, SignIn, SignOut, ChangeFavorite, RecordActivity,
         ChangeLike, AddComment, ListFavorites, ListTopContent;
    StepIsServe(env, db, e);
    var json := JsonFor(env, e);
    match RouteOf(e)
    case Register => RegisterFrame(env, db, e, json);
    case Confirm => ConfirmFrame(db, e, json);
    case FavoriteChange(kind, put, key) => FavoriteFrame(db, e, kind, put, key);
    case Activity => ActivityFrame(env, db, e, json);
    case Like(put, contentId) => LikeFrame(db, e, put, contentId, json);
    case Comment(contentId) => CommentFrame(db, e, contentId, json);
    case Login => SessionFrame(env, db, e, json);
    case CloseSession => SessionFrame(env, db, e, json);
    case _ => ReadsFrame(env, db, e);
  }
}
