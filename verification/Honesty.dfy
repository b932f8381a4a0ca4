/** Why replies can be believed: what the row-count tests of the handlers rest on, and how
    uploads, requests and the view counts fit together. */
module Honesty {
  import opened Options
  import opened Text
  import opened Numbers
  import opened Uuids
  import opened Tables
  import opened Schema
  import opened Router
  import opened Sql
  import opened Service
  import opened Statements
  import opened Effects
  import Json
  import Validation
  import TopContent
  import Upload
  import Likes

  // ----- row counts, in any tables whatever -----

  /** In arbitrary tables a sign-in could refuse and still create sessions: exactly when two or
      more confirmed users share the address and the password, and the new keys are free. */
  lemma LoginMisreportsOnlyForDuplicates(env: Env, db: Db, m: Moment, address: string, password: string, ttl: string)
    ensures var (after, result) := InsertSessions(env, db, m, address, password, ttl);
            var found := Select(db.users, CanSignIn(env, address, password));
            after != db && !(result.Tuples? && |result.rows| == 1) <==>
              && IsUtf8(address) && IsUtf8(password) && IsUtf8(ttl) && ParseInt4(ttl).Some?
              && |found| >= 2
              && TokensDistinct(db.sessions + NewSessions(m, found, ParseInt4(ttl).value))
  {
    hide IsUtf8, ParseInt4, Select, CanSignIn, TokensDistinct;
    if ParseInt4(ttl).Some? {
      var found := Select(db.users, CanSignIn(env, address, password));
      var rows := NewSessions(m, found, ParseInt4(ttl).value);
      assert |db.sessions + rows| == |db.sessions| + |found|;
      assert |found| == 0 ==> db.sessions + rows == db.sessions;
    }
  }

  /** Unique addresses rule that out. */
  lemma LoginNeverMisreports(env: Env, db: Db, m: Moment, address: string, password: string, ttl: string)
    requires Valid(env, db)
    ensures var (after, result) := InsertSessions(env, db, m, address, password, ttl);
            !(result.Tuples? && |result.rows| == 1) ==> after == db
  {
    LoginMisreportsOnlyForDuplicates(env, db, m, address, password, ttl);
    SelectUnique(db.users, CanSignIn(env, address, password)) by {
      hide UserChecks, AccountsOk, SessionsOk, FavoritesOk, EventsOk, LikesOk, CommentsOk;
    }
    hide InsertSessions, Valid, IsUtf8, ParseInt4, TokensDistinct;
  }

  /** In arbitrary tables a confirmation could fail and still consume a token: exactly when the
      token is live and does not have one owner. */
  lemma ConfirmMisreportsOnlyForOrphans(db: Db, now: Time, text: string)
    ensures var (after, result) := ConsumeToken(db, now, text);
            after != db && !(result.Tuples? && |result.rows| == 1) <==>
              && Parse(text).Some?
              && var live := Select(db.tokens, TokenLive(Parse(text).value, now));
              && live != [] && |Select(db.users, OwnerAmong(live))| != 1
  {
    if Parse(text).None? {
      return;
    }
    ParsedIsAscii(text);
    AsciiIsUtf8(text);
    hide Parse, IsUtf8;
    var where := TokenLive(Parse(text).value, now);
    var live := Select(db.tokens, where);
    if live == [] {
      NoLiveToken(db, now, where);
    } else {
      assert live[0] in live;
      var i :| 0 <= i < |db.tokens| && db.tokens[i] == live[0];
      assert Update(db.tokens, where, Consume(now))[i] != db.tokens[i];
    }
  }

  /** The correspondence of users and tokens rules that out. */
  lemma ConfirmNeverMisreports(env: Env, db: Db, now: Time, text: string)
    requires Valid(env, db)
    ensures var (after, result) := ConsumeToken(db, now, text);
            !(result.Tuples? && |result.rows| == 1) ==> after == db
  {
    ConfirmStatement(env, db, now, text);
    hide Parse, ConsumeToken, Valid;
  }

  // ----- registration of ordinary text -----

  /** An ASCII address and UTF-8 texts never run into a constraint: the reply is 201, or 409 for
      a taken key, or 400 for a missing or malformed field. */
  lemma OrdinaryTextRegisters(env: Env, db: Db, e: Entry, json: Option<Json.Value>)
    requires env.Lawful()
    requires forall s :: Json.GetString(json, "email", 5, 254) == Some(s) ==> IsAscii(s)
    requires forall s :: Json.GetString(json, "password", 12, 256) == Some(s) ==> IsUtf8(s)
    requires forall s :: Json.GetString(json, "display_name", 1, 100) == Some(s) ==> IsUtf8(s)
    ensures RegisterAccount(env, db, e, json).response.status in {201, 400, 409}
  {
    var email := Json.GetString(json, "email", 5, 254);
    if email.Some? {
      LowerFacts(email.value);
      AsciiIsUtf8(Lower(email.value));
    }
    hide IsUtf8, Json.GetString, Validation.Email, Has, StrictTotalOrder, IsAscii;
  }

  // ----- uploads -----

  /** Whatever the pieces, the request is the one reply that the upload handler makes: 413 with
      nothing changed, or the dispatch of the whole body. */
  lemma StepFollowsUpload(env: Env, db: Db, e: Entry)
    ensures var replies := Upload.Replies(Upload.Opening, [""] + e.request.chunks + [""]);
            && |replies| == 1
            && Step(env, db, e) == match replies[0]
                                   case TooLarge => Refuse(db, 413, "payload_too_large")
                                   case Dispatch(body) => Dispatch(env, db, e, body)
  {
    Upload.ChunkingDoesNotMatter(e.request.chunks);
    hide Dispatch, Upload.Replies, Upload.Concat;
  }

  // ----- view counts -----

  /** The event that an accepted activity request appends. */
  lemma ActivityEvent(env: Env, db: Db, e: Entry) returns (event: Event)
    requires IsActivity(env, db, e)
    ensures After(env, db, e).events == db.events + [event]
    ensures Some(event.portalKey) == Json.GetString(JsonFor(env, e), "portal_key", 1, 120)
    ensures Some(event.eventType) == Json.GetString(JsonFor(env, e), "event_type", 1, 40)
    ensures event.contentId == NullIfEmpty(TextOr(Json.GetOptionalString(JsonFor(env, e), "content_id", 300)))
    ensures event.occurredAt == e.moment.now
  {
    StepIsServe(env, db, e);
    var json := JsonFor(env, e);
    ActorRefusals(db, e.moment.authAt, e.request.authorization, json);
    ActivityFrame(env, db, e, json);
    hide Step, Recognise, Reached, JsonFor, Json.GetString, Validation.IsKey, Validation.EventType, ActorOf, IsUtf8,
         NullIfEmpty;
    event := After(env, db, e).events[|db.events|];
  }

  /** An accepted view raises the count of its own content, by one, in every window that has begun by
      now; other windows, other contents and other accepted activities keep their counts. */
  lemma PostedViewsAreCounted(env: Env, db: Db, e: Entry, q: TopContent.Query, id: string)
    requires IsActivity(env, db, e)
    ensures TopContent.Count(After(env, db, e).events, q, id) == TopContent.Count(db.events, q, id)
            + if Json.GetString(JsonFor(env, e), "portal_key", 1, 120) == Some(q.portal)
                 && Json.GetString(JsonFor(env, e), "event_type", 1, 40) in {Some("page_view"), Some("content_view")}
                 && TextOr(Json.GetOptionalString(JsonFor(env, e), "content_id", 300)) == id != ""
                 && q.since <= e.moment.now
              then 1 else 0
  {
    var event := ActivityEvent(env, db, e);
    TopContent.CountAppended(db.events, event, q, id);
    hide After, JsonFor, Json.GetString, IsActivity, TopContent.Count;
  }

  /** Likes and comments are no views, and no other request touches the log. */
  lemma OtherRequestsAreNoViews(env: Env, db: Db, e: Entry, q: TopContent.Query, id: string)
    requires Valid(env, db) && !IsActivity(env, db, e)
    ensures TopContent.Count(After(env, db, e).events, q, id) == TopContent.Count(db.events, q, id)
  {
    OnlyAcceptedRequestsChange(env, db, e);
    if IsLikeChange(env, db, e) {
      LikeAppendsNoView(env, db, e, q, id);
    } else if IsComment(env, db, e) {
      CommentAppendsNoView(env, db, e, q, id);
    }
    hide After, Valid, TopContent.Count, IsActivity, IsLikeChange, IsComment;
  }

  lemma NoView(events: seq<Event>, event: Event, q: TopContent.Query, id: string)
    requires event.eventType == "like" || event.eventType == "comment"
    ensures TopContent.Count(events + [event], q, id) == TopContent.Count(events, q, id)
  {
    TopContent.CountAppended(events, event, q, id);
    hide TopContent.Count;
  }

  lemma LikeAppendsNoView(env: Env, db: Db, e: Entry, q: TopContent.Query, id: string)
    requires Valid(env, db) && IsLikeChange(env, db, e)
    ensures TopContent.Count(After(env, db, e).events, q, id) == TopContent.Count(db.events, q, id)
  {
    Likes.LikeStep(env, db, e);
    hide After, IsLikeChange, Likes.LikeRequest, TopContent.Count, Valid, Actor.Key, Actor.Valid;
    var after := After(env, db, e);
    if after.events != db.events {
      var event := after.events[|db.events|];
      assert after.events == db.events + [event] && event.eventType == "like";
      NoView(db.events, event, q, id);
    }
  }

  lemma CommentAppendsNoView(env: Env, db: Db, e: Entry, q: TopContent.Query, id: string)
    requires IsComment(env, db, e)
    ensures TopContent.Count(After(env, db, e).events, q, id) == TopContent.Count(db.events, q, id)
  {
    hide IsComment, After, TopContent.Count;
    var event := CommentEvent(env, db, e);
    NoView(db.events, event, q, id);
  }

  /** A top-content reply is the answer to the query over everything recorded so far. */
  lemma TopContentReplyIsTop(env: Env, db: Db, e: Entry)
    requires env.Lawful() && RouteOf(e) == Route.TopContent && ReplyTo(env, db, e).status == 200
    ensures var reply := ReplyTo(env, db, e).payload;
            && reply.MostViewed?
            && Argument(e.request.query, "portal_key") == Some(reply.portal)
            && RangeValue(Argument(e.request.query, "days"), 7, 1, 365) == Some(reply.days)
            && exists limit: nat ::
                 && RangeValue(Argument(e.request.query, "limit"), 10, 1, 100) == Some(limit)
                 && var q := TopContent.Query(reply.portal, e.moment.now - 86_400_000_000 * reply.days, limit);
                 && TopContent.IsTop(reply.items, db.events, q, env.collate)
  {
    StepIsServe(env, db, e);
    hide Step, Recognise, Reached, JsonFor, CallerOf, Validation.IsKey, RangeValue, TopContent.Top, StrictTotalOrder,
         TopContent.IsTop;
    var reply := ReplyTo(env, db, e).payload;
    var limit: nat := RangeValue(Argument(e.request.query, "limit"), 10, 1, 100).value;
    TopContent.TopIsTop(db.events, TopContent.Query(reply.portal, e.moment.now - Days(reply.days), limit), env.collate);
  }
}
