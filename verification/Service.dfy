/** What each request does, on values: the reference that the handlers are proved against.
    The only constraints that a request can meet here are taken keys and a `lower` that disagrees:
    that the validation rules out all others in every valid state is part of the proof of the
    handlers. */
module Service {
  import opened Options
  import opened Text
  import opened Numbers
  import opened Uuids
  import opened Validation
  import opened Tables
  import opened Schema
  import opened Sorting
  import opened Router
  import opened Sql
  import Config
  import Json
  import TopContent
  import Upload

  datatype Payload =
    | Nothing
    | Message
    | Error(code: string)
    | Registered(confirmationExpiresAt: Time, confirmationToken: Option<Uuid>)
    | SignedIn(token: Uuid, expiresAt: Time)
    | EventRecorded(id: nat)
    | Commented(commentId: Uuid, createdAt: Time)
    | Keys(keys: seq<string>)
    | MostViewed(portal: string, days: int, items: seq<TopContent.Row>)

  datatype Response = Response(status: int, payload: Payload)

  datatype Outcome = Outcome(db: Db, response: Response)

  datatype Request = Request(verb: string, url: string, authorization: Option<string>,
                             query: map<string, string>, chunks: seq<Upload.Piece>)

  /** One request with the settings in force and what it draws from clock and generators. */
  datatype Entry = Entry(request: Request, settings: Config.Settings, moment: Moment)

  function Refuse(db: Db, status: int, code: string): Outcome {
    Outcome(db, Response(status, Error(code)))
  }

  // ----- callers and actors -----

  datatype Caller = NoHeader | BadToken | SignedInAs(user: User)

  const BEARER := "Bearer "

  /** The token text of a well-formed header. */
  function BearerToken(authorization: Option<string>): Option<Uuid> {
    if authorization.None? || !StartsWith(authorization.value, BEARER) || |authorization.value| != 7 + TEXT_LENGTH then
      None
    else Parse(authorization.value[7..])
  }

  function CallerOf(db: Db, at: Time, authorization: Option<string>): Caller {
    if authorization.None? || authorization.value == "" then NoHeader
    else
      match BearerToken(authorization)
      case None => BadToken
      case Some(token) =>
        var users := Owners(db.sessions, db.users, token, at);
        if |users| == 1 then SignedInAs(users[0]) else BadToken
  }

  datatype Identified = Known(actor: Actor) | Unknown(status: int, code: string)

  function ActorOf(db: Db, at: Time, authorization: Option<string>, json: Option<Json.Value>): Identified {
    match CallerOf(db, at, authorization)
    case SignedInAs(user) => Known(Account(user.id))
    case BadToken => Unknown(401, "invalid_token")
    case NoHeader =>
      var id := Json.GetOptionalString(json, "anonymous_id", 200);
      if id.Some? && IsAnonymousId(id.value) then Known(Visitor(id.value)) else Unknown(400, "anonymous_id_required")
  }

  function TextOr(s: Option<string>): string {
    if s.None? then "" else s.value
  }

  // ----- accounts and sessions -----

  function RegisterAccount(env: Env, db: Db, e: Entry, json: Option<Json.Value>): Outcome {
    var m := e.moment;
    var email := Json.GetString(json, "email", 5, 254);
    var password := Json.GetString(json, "password", 12, 256);
    var displayName := Json.GetString(json, "display_name", 1, 100);
    if email.None? || password.None? || displayName.None? || !Email(email) then Refuse(db, 400, "validation_error")
    else
      var address := Lower(email.value);
      if !(IsUtf8(address) && IsUtf8(password.value) && IsUtf8(displayName.value)) || env.lower(address) != address then
        Refuse(db, 500, "database_error")
      else if Has(db.users, HasEmail(address)) || Has(db.users, HasId(m.userId))
              || Has(db.tokens, HasToken(m.confirmationToken)) then
        Refuse(db, 409, "email_already_registered")
      else
        var expiresAt := m.now + Hours(e.settings.confirmationTtlHours);
        Outcome(db.(users := db.users + [User(m.userId, address, displayName.value, env.crypt(password.value, m.salt),
                                              None, m.now, m.now)],
                    tokens := db.tokens + [Token(m.confirmationToken, m.userId, expiresAt, None, m.now)]),
                Response(201, Registered(expiresAt,
                                         if e.settings.exposeToken then Some(m.confirmationToken) else None)))
  }

  function ConfirmWith(db: Db, now: Time, token: Uuid): Outcome {
    var live := Select(db.tokens, TokenLive(token, now));
    if |live| != 1 then Refuse(db, 400, "invalid_confirmation_token")
    else
      Outcome(db.(tokens := Update(db.tokens, TokenLive(token, now), Consume(now)),
                  users := Update(db.users, HasId(live[0].userId), ConfirmUser(now))),
              Response(200, Message))
  }

  function ConfirmAccount(db: Db, e: Entry, json: Option<Json.Value>): Outcome {
    var token := Json.GetString(json, "token", TEXT_LENGTH, TEXT_LENGTH);
    if token.None? then Refuse(db, 400, "validation_error")
    else
      match Parse(token.value)
      case None => Refuse(db, 400, "invalid_confirmation_token")
      case Some(id) => ConfirmWith(db, e.moment.now, id)
  }

  function SignIn(env: Env, db: Db, e: Entry, json: Option<Json.Value>): Outcome {
    var m := e.moment;
    var email := Json.GetString(json, "email", 5, 254);
    var password := Json.GetString(json, "password", 1, 256);
    if email.None? || password.None? || !Email(email) then Refuse(db, 400, "validation_error")
    else
      var address := Lower(email.value);
      if !(IsUtf8(address) && IsUtf8(password.value)) then Refuse(db, 500, "database_error")
      else
        var found := Select(db.users, CanSignIn(env, address, password.value));
        if |found| != 1 then Refuse(db, 401, "invalid_credentials")
        else if exists s | s in db.sessions :: s.token == m.sessionToken(0) then Refuse(db, 500, "database_error")
        else
          var expiresAt := m.now + Hours(e.settings.tokenTtlHours);
          var session := Session(m.sessionToken(0), found[0].id, expiresAt, None, m.now, m.now);
          Outcome(db.(sessions := db.sessions + [session]),
                  Response(200, SignedIn(m.sessionToken(0), expiresAt)))
  }

  function SignOut(db: Db, e: Entry): Outcome {
    if !CallerOf(db, e.moment.authAt, e.request.authorization).SignedInAs? then Refuse(db, 401, "unauthorized")
    else
      var token := BearerToken(e.request.authorization).value;
      Outcome(db.(sessions := Update(db.sessions, SessionOpen(token), Revoke(e.moment.now))), Response(204, Nothing))
  }

  // ----- favourites -----

  function ListFavorites(env: Env, db: Db, e: Entry, kind: Kind): Outcome {
    match CallerOf(db, e.moment.authAt, e.request.authorization)
    case SignedInAs(user) =>
      Outcome(db, Response(200, Keys(Sorted(KeysOf(Select(db.Favorites(kind), FavoriteOf(user.id))), env.collate))))
    case _ => Refuse(db, 401, "unauthorized")
  }

  function ChangeFavorite(db: Db, e: Entry, kind: Kind, put: bool, key: string): Outcome {
    match CallerOf(db, e.moment.authAt, e.request.authorization)
    case SignedInAs(user) =>
      var rows := db.Favorites(kind);
      if !IsKey(key, 160) then Refuse(db, 400, "validation_error")
      else if !put then Outcome(db.WithFavorites(kind, Delete(rows, FavoriteIs(user.id, key))), Response(204, Nothing))
      else if Has(rows, FavoriteIs(user.id, key)) then Outcome(db, Response(204, Nothing))
      else Outcome(db.WithFavorites(kind, rows + [Favorite(user.id, key, e.moment.now)]), Response(204, Nothing))
    case _ => Refuse(db, 401, "unauthorized")
  }

  // ----- activity, likes, comments -----

  function NewEvent(db: Db, now: Time, actor: Actor, portal: string, eventType: string, contentId: Option<string>,
                    componentId: Option<string>, pageUrl: Option<string>, data: string): Event {
    Event(db.nextEvent, actor.UserId(), actor.AnonymousId(), portal, eventType, contentId, componentId, pageUrl,
          data, now, now)
  }

  function Append(db: Db, event: Event): Db {
    db.(events := db.events + [event], nextEvent := db.nextEvent + 1)
  }

  /** The serialised `event_data`, or `None` when it is there but not an object. */
  function EventData(json: Option<Json.Value>): Option<string> {
    match Json.Field(json, "event_data")
    case None => Some("{}")
    case Some(Object(_, text)) => Some(text)
    case _ => None
  }

  function RecordActivity(env: Env, db: Db, e: Entry, json: Option<Json.Value>): Outcome {
    var portal := Json.GetString(json, "portal_key", 1, 120);
    var eventType := Json.GetString(json, "event_type", 1, 40);
    var contentId := TextOr(Json.GetOptionalString(json, "content_id", 300));
    var componentId := TextOr(Json.GetOptionalString(json, "component_id", 300));
    var pageUrl := TextOr(Json.GetOptionalString(json, "page_url", 2000));
    if portal.None? || eventType.None? || !IsKey(portal.value, 120) || !EventType(eventType) then
      Refuse(db, 400, "validation_error")
    else
      match ActorOf(db, e.moment.authAt, e.request.authorization, json)
      case Unknown(status, code) => Refuse(db, status, code)
      case Known(actor) =>
        match EventData(json)
        case None => Refuse(db, 400, "validation_error")
        case Some(data) =>
          if !(IsUtf8(contentId) && IsUtf8(componentId) && IsUtf8(pageUrl) && IsUtf8(data)) || !env.jsonb(data) then
            Refuse(db, 500, "database_error")
          else
            var event := NewEvent(db, e.moment.now, actor, portal.value, eventType.value, NullIfEmpty(contentId),
                                  NullIfEmpty(componentId), NullIfEmpty(pageUrl), data);
            Outcome(Append(db, event), Response(201, EventRecorded(event.id)))
  }

  /** The database after an accepted PUT or DELETE of a like. */
  function LikeApplied(db: Db, now: Time, put: bool, contentId: string, actor: Actor, portal: string): Db {
    if !put then db.(likes := Delete(db.likes, LikeIs(contentId, actor.Key())))
    else if Has(db.likes, LikeIs(contentId, actor.Key())) then db.(nextLike := db.nextLike + 1)
    else
      var row := LikeRow(db.nextLike, contentId, actor.UserId(), actor.AnonymousId(), actor.Key(), now);
      Append(db.(likes := db.likes + [row], nextLike := db.nextLike + 1),
             NewEvent(db, now, actor, portal, "like", Some(contentId), None, None, "{}"))
  }

  function ChangeLike(db: Db, e: Entry, put: bool, contentId: string, json: Option<Json.Value>): Outcome {
    var portal := Json.GetString(json, "portal_key", 1, 120);
    if !IsKey(contentId, 300) then Refuse(db, 400, "validation_error")
    else
      match ActorOf(db, e.moment.authAt, e.request.authorization, json)
      case Unknown(status, code) => Refuse(db, status, code)
      case Known(actor) =>
        if put && (portal.None? || !IsKey(portal.value, 120)) then Refuse(db, 400, "validation_error")
        else Outcome(LikeApplied(db, e.moment.now, put, contentId, actor, TextOr(portal)), Response(204, Nothing))
  }

  function AddComment(db: Db, e: Entry, contentId: string, json: Option<Json.Value>): Outcome {
    var m := e.moment;
    var body := Json.GetString(json, "body", 1, 5000);
    var authorName := TextOr(Json.GetOptionalString(json, "author_name", 100));
    var portal := Json.GetString(json, "portal_key", 1, 120);
    if !IsKey(contentId, 300) || portal.None? || !IsKey(portal.value, 120) || body.None? then
      Refuse(db, 400, "validation_error")
    else
      match ActorOf(db, m.authAt, e.request.authorization, json)
      case Unknown(status, code) => Refuse(db, status, code)
      case Known(actor) =>
        if !(IsUtf8(authorName) && IsUtf8(body.value)) || Has(db.comments, CommentIs(m.commentId)) then
          Refuse(db, 500, "database_error")
        else
          var row := CommentRow(m.commentId, contentId, actor.UserId(), actor.AnonymousId(), NullIfEmpty(authorName),
                                body.value, m.now);
          Outcome(Append(db.(comments := db.comments + [row]),
                         NewEvent(db, m.now, actor, portal.value, "comment", Some(contentId), None, None, "{}")),
                  Response(201, Commented(row.id, m.now)))
  }

  // ----- analytics -----

  function Argument(query: map<string, string>, name: string): Option<string> {
    if name in query then Some(query[name]) else None
  }

  function ListTopContent(env: Env, db: Db, e: Entry): Outcome {
    var portal := Argument(e.request.query, "portal_key");
    var days := RangeValue(Argument(e.request.query, "days"), 7, 1, 365);
    var limit := RangeValue(Argument(e.request.query, "limit"), 10, 1, 100);
    if !CallerOf(db, e.moment.authAt, e.request.authorization).SignedInAs? then Refuse(db, 401, "unauthorized")
    else if portal.None? || !IsKey(portal.value, 120) then Refuse(db, 400, "validation_error")
    else if days.None? || limit.None? then Refuse(db, 400, "validation_error")
    else
      var q := TopContent.Query(portal.value, e.moment.now - Days(days.value), limit.value);
      Outcome(db, Response(200, MostViewed(portal.value, days.value, TopContent.Top(db.events, q, env.collate))))
  }

  // ----- dispatch -----

  function Serve(env: Env, db: Db, e: Entry, route: Route, json: Option<Json.Value>): Outcome {
    match route
    case Preflight => Outcome(db, Response(204, Nothing))
    case Health =>
      if e.moment.connected then Outcome(db, Response(200, Message))
      else Refuse(db, 503, "database_unavailable")
    case TopContent => ListTopContent(env, db, e)
    case FavoriteList(kind) => ListFavorites(env, db, e, kind)
    case CloseSession => SignOut(db, e)
    case FavoriteChange(kind, put, key) => ChangeFavorite(db, e, kind, put, key)
    case Register => RegisterAccount(env, db, e, json)
    case Confirm => ConfirmAccount(db, e, json)
    case Login => SignIn(env, db, e, json)
    case Activity => RecordActivity(env, db, e, json)
    case Like(put, contentId) => ChangeLike(db, e, put, contentId, json)
    case Comment(contentId) => AddComment(db, e, contentId, json)
    case ContentIdTooLong => Refuse(db, 400, "validation_error")
    case NotFound => Refuse(db, 404, "not_found")
  }

  /** POST and PUT need a JSON body, DELETE may carry one, other methods are served without. */
  predicate ExpectsBody(verb: string, body: string) {
    verb == "POST" || verb == "PUT" || (verb == "DELETE" && body != "")
  }

  function RouteOf(e: Entry): Route {
    Recognise(e.request.verb, e.request.url)
  }

  /** The JSON object that the route is given. */
  function JsonOf(env: Env, e: Entry, body: string): Option<Json.Value> {
    if !IgnoresBody(RouteOf(e)) && ExpectsBody(e.request.verb, body) then Json.BodyObject(env.tokener, body) else None
  }

  function Dispatch(env: Env, db: Db, e: Entry, body: string): Outcome {
    var json := JsonOf(env, e, body);
    if !IgnoresBody(RouteOf(e)) && ExpectsBody(e.request.verb, body) && json.None? then Refuse(db, 400, "invalid_json")
    else Serve(env, db, e, RouteOf(e), json)
  }

  /** A whole request: its upload, then its dispatch. */
  function Step(env: Env, db: Db, e: Entry): Outcome {
    match Upload.Outcome(Upload.Concat(e.request.chunks))
    case TooLarge => Refuse(db, 413, "payload_too_large")
    case Dispatch(body) => Dispatch(env, db, e, body)
  }

  /** The tables after a sequence of requests, starting empty. */
  function Run(env: Env, h: seq<Entry>): Db {
    if h == [] then EMPTY else Step(env, Run(env, h[..|h| - 1]), h[|h| - 1]).db
  }
}
