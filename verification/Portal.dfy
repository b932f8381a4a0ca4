/** The handlers, step by step as the C functions take them: checks, buffers, parameter texts,
    one statement, and a reply chosen from the statement's status and row count. */
module Portal {
  import opened Options
  import opened Text
  import opened Numbers
  import opened Uuids
  import opened Tables
  import opened Schema
  import opened Router
  import opened Sql
  import opened Service
  import opened Lookup
  import opened Statements
  import opened Invariant
  import opened Effects
  import Config
  import Json
  import TopContent
  import Upload
  import Validation

  datatype AuthStatus = Invalid | Anonymous | Authenticated

  datatype AuthenticatedUser = AuthenticatedUser(id: string, email: string)

  const USER_ID_BUFFER: nat := 37
  const USER_EMAIL_BUFFER: nat := 256

  function Fail(status: int, code: string): Response {
    Response(status, Error(code))
  }

  /** `portal_http_authenticate` */
  method Authenticate(env: Env, database: Db, e: Entry) returns (status: AuthStatus, user: AuthenticatedUser)
    requires Valid(env, database)
    ensures match CallerOf(database, e.moment.authAt, e.request.authorization)
            case NoHeader => status == Anonymous
            case BadToken => status == Invalid
            case SignedInAs(u) => status == Authenticated && user == AuthenticatedUser(Print(u.id), u.email)
  {
    status, user := Invalid, AuthenticatedUser("", "");
    var authorization := e.request.authorization;
    if authorization.None? || authorization.value == "" {
      return Anonymous, user;
    }
    if !StartsWith(authorization.value, BEARER) || |authorization.value[7..]| != TEXT_LENGTH {
      return;
    }
    var value := authorization.value[7..];
    if Parse(value).Some? {
      ParsedIsAscii(value);
      AsciiIsUtf8(value);
    }
    var result := SelectSessionUser(database, e.moment.authAt, value);
    if !result.Tuples? || |result.rows| != 1 {
      return;
    }
    CallerIsUser(env, database, e.moment.authAt, authorization);
    ghost var owner := CallerOf(database, e.moment.authAt, authorization).user;
    ParsePrinted(owner.id);
    var (_, id) := Snprintf(USER_ID_BUFFER, result.rows[0].0);
    var (_, email) := Snprintf(USER_EMAIL_BUFFER, result.rows[0].1);
    user := AuthenticatedUser(id, email);
    status := Authenticated;
  }

  /** What `activity_load_actor` leaves in its struct. */
  datatype LoadedActor = LoadedActor(user: AuthenticatedUser, anonymousId: string, actorKey: string)

  /** The struct holds the texts of an actor: its id or its anonymous id, and its whole key. */
  ghost predicate Holds(status: AuthStatus, loaded: LoadedActor, actor: Actor) {
    && actor.Valid()
    && loaded.actorKey == actor.Key()
    && (status == Authenticated ==> actor.Account? && loaded.user.id == Print(actor.id))
    && (status == Anonymous ==> actor.Visitor? && loaded.anonymousId == actor.anonymousId)
    && status != Invalid
  }

  /** `activity_load_actor` merges every failure into one status; the key is never truncated. */
  method LoadActor(env: Env, database: Db, e: Entry, json: Option<Json.Value>)
    returns (status: AuthStatus, loaded: LoadedActor)
    requires Valid(env, database)
    ensures match ActorOf(database, e.moment.authAt, e.request.authorization, json)
            case Unknown(_, _) => status == Invalid
            case Known(actor) => Holds(status, loaded, actor)
  {
    var user;
    status, user := Authenticate(env, database, e);
    var anonymousId := Json.GetOptionalString(json, "anonymous_id", 200);
    loaded := LoadedActor(user, TextOr(anonymousId), "");
    if status == Invalid {
      return;
    }
    var formatted: (nat, string);
    if status == Authenticated {
      ActorKeyShape(Account(CallerOf(database, e.moment.authAt, e.request.authorization).user.id));
      formatted := Snprintf(ACTOR_KEY_BUFFER, "u:" + user.id);
    } else {
      var ok := Validation.AnonymousId(anonymousId);
      if !ok {
        return Invalid, loaded;
      }
      ActorKeyShape(Visitor(anonymousId.value));
      formatted := Snprintf(ACTOR_KEY_BUFFER, "a:" + anonymousId.value);
    }
    if formatted.0 >= ACTOR_KEY_BUFFER {
      return Invalid, loaded;
    }
    loaded := loaded.(actorKey := formatted.1);
  }

  /** `values[]` of the handlers: one text is empty, the other names the actor. */
  function UserValue(status: AuthStatus, loaded: LoadedActor): string {
    if status == Authenticated then loaded.user.id else ""
  }

  function AnonymousValue(status: AuthStatus, loaded: LoadedActor): string {
    if status == Authenticated then "" else loaded.anonymousId
  }

  /** `activity_actor_error` recovers the cause from the header alone. */
  method ActorError(database: Db, e: Entry, json: Option<Json.Value>) returns (response: Response)
    requires ActorOf(database, e.moment.authAt, e.request.authorization, json).Unknown?
    ensures var why := ActorOf(database, e.moment.authAt, e.request.authorization, json);
            response == Fail(why.status, why.code)
  {
    var authorization := e.request.authorization;
    if authorization.Some? && authorization.value != "" {
      return Fail(401, "invalid_token");
    }
    return Fail(400, "anonymous_id_required");
  }

  lemma TopContentAnswer(env: Env, db: Db, e: Entry, portal: string, days: nat, limit: nat)
    requires Argument(e.request.query, "portal_key") == Some(portal) && Validation.IsKey(portal, 120)
    requires RangeValue(Argument(e.request.query, "days"), 7, 1, 365) == Some(days) && days <= 365
    requires RangeValue(Argument(e.request.query, "limit"), 10, 1, 100) == Some(limit) && limit <= 100
    requires CallerOf(db, e.moment.authAt, e.request.authorization).SignedInAs?
    ensures var result := SelectTopContent(env, db, e.moment.now, portal, Decimal(days), Decimal(limit));
            result.Tuples? && ListTopContent(env, db, e) ==
              Outcome(db, Response(200, MostViewed(portal, days, result.rows)))
  {
    hide IsUtf8, ParseInt4, Decimal, RangeValue, TopContent.Top, Validation.IsKey, CallerOf, Argument;
    TopContentStatement(env, db, e.moment.now, portal, days, limit);
  }

  /** The loop that appends each row of a result to a JSON array. */
  method AppendRows<T>(rows: seq<T>) returns (items: seq<T>)
    ensures items == rows
  {
    items := [];
    for index := 0 to |rows|
      invariant items == rows[..index]
    {
      items := items + [rows[index]];
    }
  }

  /** The process: its settings, its database connection, and the requests served so far. */
  class Server {
    const env: Env
    const settings: Config.Settings
    var database: Db
    ghost var history: seq<Entry>

    /** The tables are valid and are what the history makes of empty tables. */
    ghost predicate Ok()
      reads this
    {
      settings.InRange() && Valid(env, database) && database == Run(env, history)
    }

    constructor (env: Env, settings: Config.Settings)
      requires settings.InRange()
      ensures Ok() && history == [] && this.env == env && this.settings == settings
    {
      hide Valid;
      RunIsValid(env, []);
      this.env, this.settings, database, history := env, settings, EMPTY, [];
    }

    method RouteRegister(e: Entry, json: Option<Json.Value>) returns (response: Response)
      requires Ok() && e.settings == settings
      modifies this`database
      ensures Outcome(database, response) == RegisterAccount(env, old(database), e, json)
    {
      hide InsertUser, IsUtf8, CharLength, Decimal, StrToL, StrToUL, ParseInt4, Has, Valid, Run, CString, Lower,
           Validation.Email, Validation.IsEmail, Json.GetString;
      var email := Json.GetString(json, "email", 5, 254);
      var password := Json.GetString(json, "password", 12, 256);
      var displayName := Json.GetString(json, "display_name", 1, 100);
      if email.None? || password.None? || displayName.None? || !Validation.Email(email) {
        return Fail(400, "validation_error");
      }
      var normalizedEmail := new char[255](_ => '\0');
      var copied := Validation.LowercaseCopy(normalizedEmail, email.value);
      if !copied {
        return Fail(400, "validation_error");
      }
      DecimalFits(settings.confirmationTtlHours);
      var ttl := Snprintf(12, Decimal(settings.confirmationTtlHours));
      if ttl.0 >= 12 {
        return Fail(500, "configuration_error");
      }
      var address := CString(normalizedEmail[..]);
      RegisterStatement(env, database, e.moment, address, password.value, displayName.value,
                        settings.confirmationTtlHours);
      var (after, result) := InsertUser(env, database, e.moment, address, password.value, displayName.value, ttl.1);
      database := after;
      if !result.Tuples? {
        return if result == Failed(true) then Fail(409, "email_already_registered") else Fail(500, "database_error");
      }
      return Response(201, Registered(result.rows[0].1, if settings.exposeToken then Some(result.rows[0].0) else None));
    }

    method RouteConfirm(e: Entry, json: Option<Json.Value>) returns (response: Response)
      requires Ok()
      modifies this`database
      ensures Outcome(database, response) == ConfirmAccount(old(database), e, json)
    {
      hide IsUtf8, Parse, Valid, Run, Json.GetString;
      var token := Json.GetString(json, "token", TEXT_LENGTH, TEXT_LENGTH);
      if token.None? {
        return Fail(400, "validation_error");
      }
      ConfirmStatement(env, database, e.moment.now, token.value);
      var (after, result) := ConsumeToken(database, e.moment.now, token.value);
      hide ConsumeToken;
      database := after;
      if !result.Tuples? || |result.rows| != 1 {
        return Fail(400, "invalid_confirmation_token");
      }
      return Response(200, Message);
    }

    method RouteLogin(e: Entry, json: Option<Json.Value>) returns (response: Response)
      requires Ok() && e.settings == settings
      modifies this`database
      ensures Outcome(database, response) == SignIn(env, old(database), e, json)
    {
      hide IsUtf8, CharLength, Decimal, StrToL, StrToUL, ParseInt4, Valid, Run, CString, Lower, Validation.Email,
           Validation.IsEmail, Json.GetString, Select, CanSignIn;
      var email := Json.GetString(json, "email", 5, 254);
      var password := Json.GetString(json, "password", 1, 256);
      if email.None? || password.None? || !Validation.Email(email) {
        return Fail(400, "validation_error");
      }
      var normalizedEmail := new char[255](_ => '\0');
      var copied := Validation.LowercaseCopy(normalizedEmail, email.value);
      if !copied {
        return Fail(400, "validation_error");
      }
      DecimalFits(settings.tokenTtlHours);
      var ttl := Snprintf(12, Decimal(settings.tokenTtlHours));
      if ttl.0 >= 12 {
        return Fail(500, "configuration_error");
      }
      var address := CString(normalizedEmail[..]);
      LoginStatement(env, database, e.moment, address, password.value, settings.tokenTtlHours);
      var (after, result) := InsertSessions(env, database, e.moment, address, password.value, ttl.1);
      hide InsertSessions;
      database := after;
      if !result.Tuples? {
        return Fail(500, "database_error");
      }
      if |result.rows| != 1 {
        return Fail(401, "invalid_credentials");
      }
      return Response(200, SignedIn(result.rows[0].0, result.rows[0].1));
    }

    method RouteLogout(e: Entry) returns (response: Response)
      requires Ok()
      modifies this`database
      ensures Outcome(database, response) == SignOut(old(database), e)
    {
      hide IsUtf8, Parse, Run, Valid;
      var status, _ := Authenticate(env, database, e);
      if status != Authenticated {
        return Fail(401, "unauthorized");
      }
      CallerIsUser(env, database, e.moment.authAt, e.request.authorization);
      var value := e.request.authorization.value[7..];
      ParsedIsAscii(value);
      AsciiIsUtf8(value);
      var (after, result) := RevokeSession(database, e.moment.now, value);
      database := after;
      if !result.Command? {
        return Fail(500, "database_error");
      }
      return Response(204, Nothing);
    }

    method RouteFavoriteList(e: Entry, kind: Kind) returns (response: Response)
      requires Ok()
      ensures Outcome(database, response) == ListFavorites(env, database, e, kind)
    {
      hide IsUtf8, Parse, Run, Valid;
      var status, user := Authenticate(env, database, e);
      if status != Authenticated {
        return Fail(401, "unauthorized");
      }
      CallerIsUser(env, database, e.moment.authAt, e.request.authorization);
      FavoriteListStatement(env, database, kind, CallerOf(database, e.moment.authAt, e.request.authorization).user.id);
      var result := SelectFavorites(env, database, kind, user.id);
      hide SelectFavorites;
      if !result.Tuples? {
        return Fail(500, "database_error");
      }
      var items := AppendRows(result.rows);
      return Response(200, Keys(items));
    }

    method RouteFavoriteChange(e: Entry, kind: Kind, put: bool, key: string) returns (response: Response)
      requires Ok()
      modifies this`database
      ensures Outcome(database, response) == ChangeFavorite(old(database), e, kind, put, key)
    {
      hide IsUtf8, Parse, Run, Valid;
      var status, user := Authenticate(env, database, e);
      if status != Authenticated {
        return Fail(401, "unauthorized");
      }
      var ok := Validation.Key(Some(key), 160);
      if !ok {
        return Fail(400, "validation_error");
      }
      CallerIsUser(env, database, e.moment.authAt, e.request.authorization);
      FavoriteStatement(database, e.moment.now, kind,
                        CallerOf(database, e.moment.authAt, e.request.authorization).user.id, key);
      var (after, result) := if put then InsertFavorite(database, e.moment.now, kind, user.id, key)
                             else DeleteFavorite(database, kind, user.id, key);
      hide InsertFavorite, DeleteFavorite, Has, Delete;
      database := after;
      if !result.Command? {
        return Fail(500, "database_error");
      }
      return Response(204, Nothing);
    }

    method RouteActivity(e: Entry, json: Option<Json.Value>) returns (response: Response)
      requires Ok()
      modifies this`database
      ensures Outcome(database, response) == RecordActivity(env, old(database), e, json)
    {
      hide IsUtf8, Parse, Run, Valid, Json.GetString, Validation.IsKey, Validation.EventType;
      var portal := Json.GetString(json, "portal_key", 1, 120);
      var eventType := Json.GetString(json, "event_type", 1, 40);
      var contentId := Json.GetOptionalString(json, "content_id", 300);
      var componentId := Json.GetOptionalString(json, "component_id", 300);
      var pageUrl := Json.GetOptionalString(json, "page_url", 2000);
      var data := "{}";
      var portalOk := Validation.Key(portal, 120);
      if portal.None? || eventType.None? || !portalOk || !Validation.EventType(eventType) {
        return Fail(400, "validation_error");
      }
      var status, loaded := LoadActor(env, database, e, json);
      if status == Invalid {
        response := ActorError(database, e, json);
        return;
      }
      var given := Json.Field(json, "event_data");
      if given.Some? {
        if !given.value.Object? {
          return Fail(400, "validation_error");
        }
        data := given.value.text;
      }
      var user, anonymous := UserValue(status, loaded), AnonymousValue(status, loaded);
      KnownActorsAreReal(env, database, e, json);
      ghost var actor := ActorOf(database, e.moment.authAt, e.request.authorization, json).actor;
      ActivityStatement(env, database, e.moment.now, actor, user, anonymous, portal.value, eventType.value,
                        TextOr(contentId), TextOr(componentId), TextOr(pageUrl), data);
      var (after, result) := InsertEvent(env, database, e.moment.now, user, anonymous, portal.value, eventType.value,
                                         TextOr(contentId), TextOr(componentId), TextOr(pageUrl), data);
      hide InsertEvent, ActorOf;
      database := after;
      if !result.Tuples? {
        return Fail(500, "database_error");
      }
      return Response(201, EventRecorded(result.rows[0]));
    }

    method RouteLike(e: Entry, put: bool, contentId: string, json: Option<Json.Value>) returns (response: Response)
      requires Ok()
      modifies this`database
      ensures Outcome(database, response) == ChangeLike(old(database), e, put, contentId, json)
    {
      hide IsUtf8, Parse, Run, Valid, Json.GetString, Validation.IsKey;
      var portal := Json.GetString(json, "portal_key", 1, 120);
      var contentOk := Validation.Key(Some(contentId), 300);
      if !contentOk {
        return Fail(400, "validation_error");
      }
      var status, loaded := LoadActor(env, database, e, json);
      if status == Invalid {
        response := ActorError(database, e, json);
        return;
      }
      var portalOk := Validation.Key(portal, 120);
      if put && (portal.None? || !portalOk) {
        return Fail(400, "validation_error");
      }
      var user, anonymous := UserValue(status, loaded), AnonymousValue(status, loaded);
      KnownActorsAreReal(env, database, e, json);
      ghost var actor := ActorOf(database, e.moment.authAt, e.request.authorization, json).actor;
      if put {
        LikeStatement(database, e.moment.now, actor, user, anonymous, contentId, portal.value);
        var (after, result) := InsertLike(database, e.moment.now, contentId, user, anonymous, loaded.actorKey,
                                          portal.value);
        hide InsertLike;
        database := after;
        if !result.Tuples? {
          return Fail(500, "database_error");
        }
      } else {
        UnlikeStatement(database, e.moment.now, actor, contentId, TextOr(portal));
        var (after, result) := DeleteLike(database, contentId, loaded.actorKey);
        hide DeleteLike;
        database := after;
        if !result.Command? {
          return Fail(500, "database_error");
        }
      }
      return Response(204, Nothing);
    }

    method RouteComment(e: Entry, contentId: string, json: Option<Json.Value>) returns (response: Response)
      requires Ok()
      modifies this`database
      ensures Outcome(database, response) == AddComment(old(database), e, contentId, json)
    {
      hide IsUtf8, Parse, Run, Valid, Json.GetString, Validation.IsKey;
      var body := Json.GetString(json, "body", 1, 5000);
      var authorName := Json.GetOptionalString(json, "author_name", 100);
      var portal := Json.GetString(json, "portal_key", 1, 120);
      var contentOk := Validation.Key(Some(contentId), 300);
      var portalOk := Validation.Key(portal, 120);
      if !contentOk || portal.None? || !portalOk || body.None? {
        return Fail(400, "validation_error");
      }
      var status, loaded := LoadActor(env, database, e, json);
      if status == Invalid {
        response := ActorError(database, e, json);
        return;
      }
      var user, anonymous := UserValue(status, loaded), AnonymousValue(status, loaded);
      KnownActorsAreReal(env, database, e, json);
      ghost var actor := ActorOf(database, e.moment.authAt, e.request.authorization, json).actor;
      CommentStatement(database, e.moment, actor, user, anonymous, contentId, TextOr(authorName), body.value,
                       portal.value);
      var (after, result) := InsertComment(database, e.moment, contentId, user, anonymous, TextOr(authorName),
                                           body.value, portal.value);
      hide InsertComment, ActorOf;
      database := after;
      if !result.Tuples? || |result.rows| != 1 {
        return Fail(500, "database_error");
      }
      return Response(201, Commented(result.rows[0].0, result.rows[0].1));
    }

    method RouteTopContent(e: Entry) returns (response: Response)
      requires Ok()
      ensures Outcome(database, response) == ListTopContent(env, database, e)
    {
      hide IsUtf8, ParseInt4, Decimal, StrToL, StrToUL, Run, Valid, Validation.IsKey, RangeValue, TopContent.Top;
      var portal := Argument(e.request.query, "portal_key");
      var status, _ := Authenticate(env, database, e);
      if status != Authenticated {
        return Fail(401, "unauthorized");
      }
      var portalOk := Validation.Key(portal, 120);
      if portal.None? || !portalOk {
        return Fail(400, "validation_error");
      }
      var daysOk, days := ParseRange(Argument(e.request.query, "days"), 7, 1, 365, 7);
      if !daysOk {
        return Fail(400, "validation_error");
      }
      var limitOk, limit := ParseRange(Argument(e.request.query, "limit"), 10, 1, 100, 10);
      if !limitOk {
        return Fail(400, "validation_error");
      }
      TopContentAnswer(env, database, e, portal.value, days, limit);
      hide ListTopContent, CallerOf, SelectTopContent;
      DecimalFits(days);
      DecimalFits(limit);
      var daysBuffer, limitBuffer := Snprintf(12, Decimal(days)).1, Snprintf(12, Decimal(limit)).1;
      var result := SelectTopContent(env, database, e.moment.now, portal.value, daysBuffer, limitBuffer);
      if !result.Tuples? {
        return Fail(500, "database_error");
      }
      var items := AppendRows(result.rows);
      return Response(200, MostViewed(portal.value, days, items));
    }

    /** `http_dispatch_without_body` */
    method DispatchWithoutBody(e: Entry) returns (handled: bool, response: Response)
      requires Ok()
      modifies this`database
      ensures handled == IgnoresBody(RouteOf(e))
      ensures if handled then Outcome(database, response) == Serve(env, old(database), e, RouteOf(e), None)
              else database == old(database)
    {
      hide Valid, Run, ListTopContent, ListFavorites, SignOut, ChangeFavorite;
      handled, response := true, Response(204, Nothing);
      match RecogniseWithoutBody(e.request.verb, e.request.url)
      case Some(Preflight) =>
      case Some(Health) =>
        response := if e.moment.connected then Response(200, Message) else Fail(503, "database_unavailable");
      case Some(TopContent) => response := RouteTopContent(e);
      case Some(FavoriteList(kind)) => response := RouteFavoriteList(e, kind);
      case Some(CloseSession) => response := RouteLogout(e);
      case Some(FavoriteChange(kind, put, key)) => response := RouteFavoriteChange(e, kind, put, key);
      case _ =>
        handled := false;
    }

    /** `http_dispatch_content` */
    method DispatchContent(e: Entry, json: Option<Json.Value>) returns (response: Response)
      requires Ok() && StartsWith(e.request.url, CONTENT)
      modifies this`database
      ensures Outcome(database, response) ==
              Serve(env, old(database), e, RecogniseContent(e.request.verb, e.request.url[9..]), json)
    {
      hide Valid, Run, ChangeLike, AddComment;
      var path, verb := e.request.url[9..], e.request.verb;
      if (verb == "PUT" || verb == "DELETE") && |path| > 5 && EndsWith(path, "/like") {
        var contentId := CopyContentId(path, 5);
        if contentId.None? {
          return Fail(400, "validation_error");
        }
        response := RouteLike(e, verb == "PUT", contentId.value, json);
        return;
      }
      if verb == "POST" && |path| > 9 && EndsWith(path, "/comments") {
        var contentId := CopyContentId(path, 9);
        if contentId.None? {
          return Fail(400, "validation_error");
        }
        response := RouteComment(e, contentId.value, json);
        return;
      }
      return Fail(404, "not_found");
    }

    /** `http_dispatch_json_route` */
    method DispatchJsonRoute(e: Entry, json: Option<Json.Value>) returns (response: Response)
      requires Ok() && e.settings == settings
      modifies this`database
      ensures Outcome(database, response) ==
              Serve(env, old(database), e, RecogniseWithBody(e.request.verb, e.request.url), json)
    {
      hide Valid, Run, RegisterAccount, ConfirmAccount, SignIn, RecordActivity, ChangeLike, AddComment,
           RecogniseContent;
      var verb, url := e.request.verb, e.request.url;
      if verb == "POST" && url == "/auth/register" {
        response := RouteRegister(e, json);
      } else if verb == "POST" && url == "/auth/confirm" {
        response := RouteConfirm(e, json);
      } else if verb == "POST" && url == "/auth/login" {
        response := RouteLogin(e, json);
      } else if verb == "POST" && url == "/activity" {
        response := RouteActivity(e, json);
      } else if StartsWith(url, CONTENT) {
        response := DispatchContent(e, json);
      } else {
        response := Fail(404, "not_found");
      }
    }

    /** `http_dispatch`: the whole of a request once its upload is complete. */
    method DispatchRequest(e: Entry, body: string) returns (response: Response)
      requires Ok() && e.settings == settings
      modifies this`database
      ensures Outcome(database, response) == Dispatch(env, old(database), e, body)
    {
      hide Valid, Run, Serve, RecogniseWithoutBody, RecogniseWithBody, IgnoresBody, Json.BodyObject;
      var handled: bool;
      handled, response := DispatchWithoutBody(e);
      if handled {
        return;
      }
      var json: Option<Json.Value> := None;
      var verb := e.request.verb;
      if verb == "POST" || verb == "PUT" || (verb == "DELETE" && |body| > 0) {
        json := Json.ParseBody(env.tokener, body);
        if json.None? {
          return Fail(400, "invalid_json");
        }
      }
      HandledIffBodyIgnored(verb, e.request.url);
      response := DispatchJsonRoute(e, json);
    }

    /** One request from its first byte to its reply, as the reference has it; the state stays
        valid and stays the result of the whole history. */
    method ServeRequest(e: Entry) returns (response: Response)
      requires Ok() && e.settings == settings
      modifies this
      ensures Ok() && history == old(history) + [e]
      ensures Outcome(database, response) == Step(env, old(database), e)
      ensures response.status >= 400 ==> database == old(database)
    {
      hide Valid, Dispatch;
      StepKeepsValid(env, database, e);
      OnlyAcceptedRequestsChange(env, database, e);
      assert (history + [e])[..|history|] == history;
      var exchange := Upload.Receive(e.request.chunks, _ => true, true);
      assert !Upload.Starved(e.request.chunks, _ => true, |e.request.chunks|);
      match exchange.replies[0]
      case TooLarge =>
        response := Fail(413, "payload_too_large");
        history := history + [e];
      case Dispatch(body) =>
        response := DispatchRequest(e, body);
        history := history + [e];
    }
  }
}
