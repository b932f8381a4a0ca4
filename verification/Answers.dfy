/** What a request is told and who it acts as, in terms of its header, its body and the rows that
    are there: nothing here is said through the definitions that the handlers are built from. */
module Answers {
  import opened Options
  import opened Uuids
  import opened Schema
  import opened Router
  import opened Sql
  import opened Service
  import opened Lookup
  import opened Effects
  import Json
  import Numbers
  import TopContent
  import Upload
  import Validation

  // ----- uploads and bodies -----

  /** The routes that never look at a body. */
  predicate WithoutBody(r: Route) {
    r in {Preflight, Health, Route.TopContent, CloseSession} || r.FavoriteList? || r.FavoriteChange?
  }

  /** POST and PUT need an object, DELETE may carry one. */
  predicate WantsObject(e: Entry) {
    !WithoutBody(RouteOf(e)) && (e.request.verb in {"POST", "PUT"} || (e.request.verb == "DELETE" && BodyOf(e) != ""))
  }

  /** Every request meets one of three fates: too large, not an object, or its handler. */
  lemma UploadIsJudged(env: Env, db: Db, e: Entry)
    ensures if |BodyOf(e)| > 1_048_576 then Step(env, db, e) == Outcome(db, Response(413, Error("payload_too_large")))
            else if WantsObject(e) && JsonFor(env, e).None? then
              Step(env, db, e) == Outcome(db, Response(400, Error("invalid_json")))
            else Reached(env, e)
    ensures Reached(env, e) ==> |BodyOf(e)| <= 1_048_576 && (WantsObject(e) ==> JsonFor(env, e).Some?)
  {
    hide Serve, Recognise, Json.BodyObject, Upload.Concat;
  }

  /** The handler sees an object exactly when one is wanted, and the body is that object with
      nothing but blanks behind it. */
  lemma ObjectIsSeen(env: Env, e: Entry, v: Json.Value)
    ensures JsonFor(env, e) == Some(v) <==>
              && WantsObject(e)
              && var body := BodyOf(e);
              && var p := env.tokener(body);
              && body != "" && p.success && p.value == Some(v) && v.Object? && p.end <= |body|
              && forall i :: p.end <= i < |body| ==> body[i] in {' ', '\t', '\r', '\n'}
  {
    hide Recognise, Upload.Concat;
  }

  // ----- who acts -----

  predicate Sent(authorization: Option<string>) {
    authorization.Some? && authorization.value != ""
  }

  /** The header carries the token of a session of this confirmed user that is neither revoked nor over. */
  ghost predicate SignedInBy(db: Db, at: Time, authorization: Option<string>, u: User) {
    && authorization.Some? && |authorization.value| == 43 && authorization.value[..7] == "Bearer "
    && u in db.users && u.confirmedAt.Some?
    && exists s ::
         s in db.sessions && Parse(authorization.value[7..]) == Some(s.token) && s.userId == u.id
         && s.revokedAt.None? && at < s.expiresAt
  }

  lemma CallerIsSignedIn(env: Env, db: Db, at: Time, authorization: Option<string>)
    requires Valid(env, db)
    ensures forall u :: CallerOf(db, at, authorization) == SignedInAs(u) <==> SignedInBy(db, at, authorization, u)
    ensures CallerOf(db, at, authorization).NoHeader? <==> !Sent(authorization)
  {
    hide Valid, Owners, Parse;
    forall u ensures CallerOf(db, at, authorization) == SignedInAs(u) <==> SignedInBy(db, at, authorization, u) {
      CallerMeaning(env, db, at, authorization, u);
    }
  }

  /** A request acts as the signed-in user; without a header it acts as the visitor of its "anonymous_id". */
  ghost predicate ActsAs(db: Db, e: Entry, json: Option<Json.Value>, actor: Actor) {
    match actor
    case Account(id) => exists u :: SignedInBy(db, e.moment.authAt, e.request.authorization, u) && u.id == id
    case Visitor(id) =>
      && !Sent(e.request.authorization)
      && Json.GetString(json, "anonymous_id", 0, 200) == Some(id) && Validation.IsAnonymousId(id)
  }

  /** The refusal of a request that acts as nobody. */
  function NobodyReply(authorization: Option<string>): Response {
    if Sent(authorization) then Response(401, Error("invalid_token"))
    else Response(400, Error("anonymous_id_required"))
  }

  /** An "anonymous_id" beside a live session changes nothing, nor does it help beside a dead one. */
  lemma ActorIsWhoActs(env: Env, db: Db, e: Entry, json: Option<Json.Value>)
    requires Valid(env, db)
    ensures var who := ActorOf(db, e.moment.authAt, e.request.authorization, json);
            && (forall a: Actor :: who == Known(a) <==> ActsAs(db, e, json, a))
            && (who.Unknown? ==> Response(who.status, Error(who.code)) == NobodyReply(e.request.authorization))
  {
    hide Valid, CallerOf, SignedInBy, Validation.IsAnonymousId, Json.GetString;
    CallerIsSignedIn(env, db, e.moment.authAt, e.request.authorization);
    var who := ActorOf(db, e.moment.authAt, e.request.authorization, json);
    forall a: Actor ensures who == Known(a) <==> ActsAs(db, e, json, a) {
      ActorIs(env, db, e, json, a);
    }
  }

  lemma ActorIs(env: Env, db: Db, e: Entry, json: Option<Json.Value>, a: Actor)
    requires Valid(env, db)
    ensures ActorOf(db, e.moment.authAt, e.request.authorization, json) == Known(a) <==> ActsAs(db, e, json, a)
  {
    hide Valid, CallerOf, SignedInBy, Validation.IsAnonymousId, Json.GetString;
    CallerIsSignedIn(env, db, e.moment.authAt, e.request.authorization);
    var caller := CallerOf(db, e.moment.authAt, e.request.authorization);
    assert caller.SignedInAs? ==> SignedInBy(db, e.moment.authAt, e.request.authorization, caller.user);
  }

  // ----- routes without an effect -----

  lemma ProbesAreAnswered(env: Env, db: Db, e: Entry)
    requires Reached(env, e)
    ensures RouteOf(e) == Health ==>
              ReplyTo(env, db, e) == if e.moment.connected then Response(200, Message)
                                     else Response(503, Error("database_unavailable"))
    ensures RouteOf(e) == Preflight ==> ReplyTo(env, db, e) == Response(204, Nothing)
    ensures RouteOf(e) == NotFound ==> ReplyTo(env, db, e) == Response(404, Error("not_found"))
    ensures RouteOf(e) == ContentIdTooLong ==> ReplyTo(env, db, e) == Response(400, Error("validation_error"))
  {
    StepIsServe(env, db, e);
    hide Step, Recognise, Reached, JsonFor;
  }

  // ----- top content -----

  /** The value of an optional number: its default, or what its text denotes within the range. */
  function NumberOf(query: map<string, string>, name: string, default: int, low: int, high: int): Option<int> {
    if name in query then Numbers.RangeValue(Some(query[name]), default, low, high) else Some(default)
  }

  lemma NumberIsArgument(query: map<string, string>, name: string, default: int, low: int, high: int)
    ensures NumberOf(query, name, default, low, high) == Numbers.RangeValue(Argument(query, name), default, low, high)
  {
  }

  /** No session, 401; a bad portal or number, 400; otherwise the list of the portal and the days asked for. */
  lemma TopContentIsAnswered(env: Env, db: Db, e: Entry)
    requires Valid(env, db) && Reached(env, e) && RouteOf(e) == Route.TopContent
    ensures var query := e.request.query;
            var days, limit := NumberOf(query, "days", 7, 1, 365), NumberOf(query, "limit", 10, 1, 100);
            var reply := ReplyTo(env, db, e);
            if forall u :: !SignedInBy(db, e.moment.authAt, e.request.authorization, u) then
              reply == Response(401, Error("unauthorized"))
            else if "portal_key" !in query || !Validation.IsKey(query["portal_key"], 120)
                    || days.None? || limit.None? then
              reply == Response(400, Error("validation_error"))
            else
              && reply.status == 200 && reply.payload.MostViewed?
              && reply.payload.portal == query["portal_key"] && reply.payload.days == days.value
  {
    NumberIsArgument(e.request.query, "days", 7, 1, 365);
    NumberIsArgument(e.request.query, "limit", 10, 1, 100);
    hide Step, Recognise, Reached, JsonFor, CallerOf, SignedInBy, Valid, Validation.IsKey, Numbers.RangeValue,
         TopContent.Top;
    StepIsServe(env, db, e);
    CallerIsSignedIn(env, db, e.moment.authAt, e.request.authorization);
    var caller := CallerOf(db, e.moment.authAt, e.request.authorization);
    assert caller.SignedInAs? ==> SignedInBy(db, e.moment.authAt, e.request.authorization, caller.user);
  }

  lemma TopContentIsServed(env: Env, db: Db, e: Entry)
    requires Reached(env, e) && RouteOf(e) == Route.TopContent && ReplyTo(env, db, e).status == 200
    ensures var limit := NumberOf(e.request.query, "limit", 10, 1, 100);
            var reply := ReplyTo(env, db, e).payload;
            && limit.Some? && limit.value >= 0 && reply.MostViewed?
            && var since := e.moment.now - 86_400_000_000 * reply.days;
            && reply.items == TopContent.Top(db.events, TopContent.Query(reply.portal, since, limit.value), env.collate)
  {
    NumberIsArgument(e.request.query, "days", 7, 1, 365);
    NumberIsArgument(e.request.query, "limit", 10, 1, 100);
    hide Step, Recognise, Reached, JsonFor, CallerOf, Validation.IsKey, Numbers.RangeValue, TopContent.Top;
    StepIsServe(env, db, e);
  }

  /** How often a content was viewed in a portal since some instant. */
  ghost function ViewsOf(db: Db, portal: string, since: Time, id: string): nat {
    |TopContent.ViewPositions(db.events, portal, since, id)|
  }

  /** The items are true counts of the last `days` times 24 hours, most viewed first and equals by id; the
      list ends with the last viewed content, or at the limit before contents that are viewed no more. */
  lemma TopContentItems(env: Env, db: Db, e: Entry)
    requires env.Lawful() && Valid(env, db) && Reached(env, e) && RouteOf(e) == Route.TopContent
    requires ReplyTo(env, db, e).status == 200
    ensures NumberOf(e.request.query, "limit", 10, 1, 100).Some? && ReplyTo(env, db, e).payload.MostViewed?
    ensures var reply := ReplyTo(env, db, e).payload;
            var limit := NumberOf(e.request.query, "limit", 10, 1, 100).value;
            var since := e.moment.now - 86_400_000_000 * reply.days;
            var items := reply.items;
            && |items| <= limit
            && (forall i :: 0 <= i < |items| ==> items[i].views == ViewsOf(db, reply.portal, since, items[i].id) > 0)
            && (forall i, j :: 0 <= i < j < |items| ==>
                  || items[i].views > items[j].views
                  || (items[i].views == items[j].views && env.collate(items[i].id, items[j].id)))
            && (forall id :: ViewsOf(db, reply.portal, since, id) > 0
                             && (forall i :: 0 <= i < |items| ==> items[i].id != id) ==>
                  && |items| == limit
                  && forall i :: 0 <= i < |items| ==>
                       || items[i].views > ViewsOf(db, reply.portal, since, id)
                       || (items[i].views == ViewsOf(db, reply.portal, since, id) && env.collate(items[i].id, id)))
  {
    hide ReplyTo, Valid, Recognise, Reached, TopContent.Top, StrictTotalOrder, TopContent.Count,
         TopContent.ViewPositions, NumberOf;
    TopContentIsServed(env, db, e);
    var reply := ReplyTo(env, db, e).payload;
    var limit: nat := NumberOf(e.request.query, "limit", 10, 1, 100).value;
    var q := TopContent.Query(reply.portal, e.moment.now - 86_400_000_000 * reply.days, limit);
    TopContent.TopIsTop(db.events, q, env.collate);
    forall id ensures TopContent.Count(db.events, q, id) == ViewsOf(db, reply.portal, q.since, id) {
      TopContent.CountIsCardinality(db.events, q, id);
    }
  }
}
