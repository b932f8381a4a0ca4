/** Likes over whole runs: the table is a set of (content, actor) pairs, and the event log accounts for it. */
module Likes {
  import opened Options
  import opened Text
  import opened Tables
  import opened Schema
  import opened Router
  import opened Sql
  import opened Service
  import opened Lookup
  import opened Invariant
  import opened Effects
  import Json
  import Validation

  /** An accepted PUT or DELETE of a like, by a real actor. */
  datatype LikeOp = LikeOp(put: bool, contentId: string, actor: Actor)

  function LikeRequest(env: Env, db: Db, e: Entry): Option<LikeOp> {
    if !IsLikeChange(env, db, e) then None
    else
      match ActorOf(db, e.moment.authAt, e.request.authorization, JsonFor(env, e))
      case Unknown(_, _) => None
      case Known(actor) => Some(LikeOp(RouteOf(e).put, RouteOf(e).contentId, actor))
  }

  predicate Liked(db: Db, contentId: string, actor: Actor) {
    Has(db.likes, LikeIs(contentId, actor.Key()))
  }

  function PortalOf(env: Env, e: Entry): string {
    TextOr(Json.GetString(JsonFor(env, e), "portal_key", 1, 120))
  }

  function Applied(db: Db, now: Time, op: LikeOp, portal: string): Db {
    LikeApplied(db, now, op.put, op.contentId, op.actor, portal)
  }

  lemma LikeStep(env: Env, db: Db, e: Entry)
    requires Valid(env, db) && IsLikeChange(env, db, e)
    ensures LikeRequest(env, db, e).Some?
    ensures LikeRequest(env, db, e).value.actor.Valid()
    ensures After(env, db, e) == Applied(db, e.moment.now, LikeRequest(env, db, e).value, PortalOf(env, e))
  {
    StepIsServe(env, db, e);
    ActorRefusals(db, e.moment.authAt, e.request.authorization, JsonFor(env, e));
    hide Step, Recognise, Reached, JsonFor, Json.GetString, Validation.IsKey, ActorOf, LikeApplied, Valid;
    KnownActorsAreReal(env, db, e, JsonFor(env, e));
  }

  // ----- the table refines a set of pairs -----

  /** An operation decides its own pair and leaves every other pair alone. */
  lemma AppliedDecides(db: Db, now: Time, op: LikeOp, portal: string, contentId: string, actor: Actor)
    requires op.actor.Valid() && actor.Valid()
    ensures Liked(Applied(db, now, op, portal), contentId, actor) <==>
            if op.contentId == contentId && op.actor == actor then op.put else Liked(db, contentId, actor)
  {
    ActorKeysAreFaithful(op.actor, actor);
    hide Actor.Key, Actor.Valid;
    var mine, theirs := LikeIs(op.contentId, op.actor.Key()), LikeIs(contentId, actor.Key());
    var after := Applied(db, now, op, portal).likes;
    if op.put && !Has(db.likes, mine) {
      var row := after[|db.likes|];
      assert after == db.likes + [row] && mine(row);
      assert forall l :: l in after <==> l in db.likes || l == row;
    }
  }

  /** What the last accepted request about this pair asked for. */
  function LastLike(env: Env, h: seq<Entry>, contentId: string, actor: Actor): Option<bool> {
    if h == [] then None
    else
      var front := h[..|h| - 1];
      match LikeRequest(env, Run(env, front), h[|h| - 1])
      case Some(op) =>
        if op.contentId == contentId && op.actor == actor then Some(op.put)
        else LastLike(env, front, contentId, actor)
      case None => LastLike(env, front, contentId, actor)
  }

  lemma LikedAfterStep(env: Env, db: Db, e: Entry, contentId: string, actor: Actor)
    requires Valid(env, db) && actor.Valid()
    ensures Liked(After(env, db, e), contentId, actor) <==>
            match LikeRequest(env, db, e)
            case Some(op) =>
              if op.contentId == contentId && op.actor == actor then op.put
              else Liked(db, contentId, actor)
            case None => Liked(db, contentId, actor)
  {
    hide Valid, Actor.Valid, Actor.Key;
    if IsLikeChange(env, db, e) {
      LikeStep(env, db, e);
      hide After, IsLikeChange, LikeRequest, Applied;
      AppliedDecides(db, e.moment.now, LikeRequest(env, db, e).value, PortalOf(env, e), contentId, actor);
    } else {
      OnlyAcceptedRequestsChange(env, db, e);
      hide After;
    }
  }

  /** After any run a content is liked by an actor exactly when that actor's last accepted like
      request on it was a PUT. */
  lemma {:induction false} LikesFollowHistory(env: Env, h: seq<Entry>, contentId: string, actor: Actor)
    requires actor.Valid()
    ensures Liked(Run(env, h), contentId, actor) <==> LastLike(env, h, contentId, actor) == Some(true)
  {
    if h != [] {
      LikesFollowHistory(env, h[..|h| - 1], contentId, actor);
      RunIsValid(env, h[..|h| - 1]);
      LikedAfterStep(env, Run(env, h[..|h| - 1]), h[|h| - 1], contentId, actor);
      RunSnoc(env, h);
      hide Run, After, Valid, Liked, LikeRequest, Actor.Valid;
    }
  }

  lemma RunSnoc(env: Env, h: seq<Entry>)
    requires h != []
    ensures Run(env, h) == After(env, Run(env, h[..|h| - 1]), h[|h| - 1])
  {
  }

  // ----- like events balance the table -----

  predicate IsLikeEvent(event: Event, contentId: string, actor: Actor) {
    event.eventType == "like" && event.contentId == Some(contentId)
    && event.userId == actor.UserId() && event.anonymousId == actor.AnonymousId()
  }

  function LikeEvents(events: seq<Event>, contentId: string, actor: Actor): nat {
    if events == [] then 0
    else LikeEvents(events[..|events| - 1], contentId, actor)
         + if IsLikeEvent(events[|events| - 1], contentId, actor) then 1 else 0
  }

  lemma LikeEventsAppend(events: seq<Event>, event: Event, contentId: string, actor: Actor)
    ensures LikeEvents(events + [event], contentId, actor) ==
            LikeEvents(events, contentId, actor) + if IsLikeEvent(event, contentId, actor) then 1 else 0
  {
    assert (events + [event])[..|events|] == events;
  }

  /** POST /activity with a 'like' event of the client's own making. */
  predicate PostsLike(env: Env, db: Db, e: Entry, contentId: string, actor: Actor) {
    && IsActivity(env, db, e)
    && Json.GetString(JsonFor(env, e), "event_type", 1, 40) == Some("like")
    && NullIfEmpty(TextOr(Json.GetOptionalString(JsonFor(env, e), "content_id", 300))) == Some(contentId)
    && ActorOf(db, e.moment.authAt, e.request.authorization, JsonFor(env, e)) == Known(actor)
  }

  /** A DELETE that removed a like which was there. */
  predicate Unlikes(env: Env, db: Db, e: Entry, contentId: string, actor: Actor) {
    LikeRequest(env, db, e) == Some(LikeOp(false, contentId, actor)) && Liked(db, contentId, actor)
  }

  function PostedLikes(env: Env, h: seq<Entry>, contentId: string, actor: Actor): nat {
    if h == [] then 0
    else PostedLikes(env, h[..|h| - 1], contentId, actor)
         + if PostsLike(env, Run(env, h[..|h| - 1]), h[|h| - 1], contentId, actor) then 1 else 0
  }

  function EffectiveUnlikes(env: Env, h: seq<Entry>, contentId: string, actor: Actor): nat {
    if h == [] then 0
    else EffectiveUnlikes(env, h[..|h| - 1], contentId, actor)
         + if Unlikes(env, Run(env, h[..|h| - 1]), h[|h| - 1], contentId, actor) then 1 else 0
  }

  /** A put that takes effect logs one event, for its own pair. */
  lemma AppliedLogs(db: Db, now: Time, op: LikeOp, portal: string, contentId: string, actor: Actor)
    requires op.actor.Valid() && actor.Valid()
    ensures LikeEvents(Applied(db, now, op, portal).events, contentId, actor) == LikeEvents(db.events, contentId, actor)
            + if op == LikeOp(true, contentId, actor) && !Liked(db, contentId, actor) then 1 else 0
  {
    hide Actor.Key;
    if op.put && !Liked(db, op.contentId, op.actor) {
      var event := NewEvent(db, now, op.actor, portal, "like", Some(op.contentId), None, None, "{}");
      LikeEventsAppend(db.events, event, contentId, actor);
      assert IsLikeEvent(event, contentId, actor) <==> op.contentId == contentId && op.actor == actor;
    }
  }

  lemma ActivityLogs(env: Env, db: Db, e: Entry, contentId: string, actor: Actor)
    requires IsActivity(env, db, e)
    ensures LikeEvents(After(env, db, e).events, contentId, actor) == LikeEvents(db.events, contentId, actor)
            + if PostsLike(env, db, e, contentId, actor) then 1 else 0
  {
    StepIsServe(env, db, e);
    var json := JsonFor(env, e);
    ActorRefusals(db, e.moment.authAt, e.request.authorization, json);
    ActivityFrame(env, db, e, json);
    hide Step, Recognise, Reached, JsonFor, Json.GetString, Validation.IsKey, Validation.EventType, ActorOf, IsUtf8,
         NullIfEmpty;
    var event := After(env, db, e).events[|db.events|];
    LikeEventsAppend(db.events, event, contentId, actor);
    hide LikeEvents;
    assert event.eventType == Json.GetString(json, "event_type", 1, 40).value;
  }

  lemma CommentIsNoLike(event: Event, contentId: string, actor: Actor)
    requires event.eventType == "comment"
    ensures !IsLikeEvent(event, contentId, actor)
  {
  }

  lemma CommentLogs(env: Env, db: Db, e: Entry, contentId: string, actor: Actor)
    requires IsComment(env, db, e)
    ensures LikeEvents(After(env, db, e).events, contentId, actor) == LikeEvents(db.events, contentId, actor)
  {
    hide IsComment, After, IsLikeEvent, LikeEvents;
    var event := CommentEvent(env, db, e);
    CommentIsNoLike(event, contentId, actor);
    LikeEventsAppend(db.events, event, contentId, actor);
  }

  lemma RoutesDiffer(env: Env, db: Db, e: Entry)
    ensures IsActivity(env, db, e) ==> !IsLikeChange(env, db, e) && !IsComment(env, db, e)
    ensures IsComment(env, db, e) ==> !IsLikeChange(env, db, e)
  {
  }

  /** Events, unlikes and the presence of the row move together in every step. */
  lemma BalanceStep(env: Env, db: Db, e: Entry, contentId: string, actor: Actor)
    requires Valid(env, db) && actor.Valid()
    ensures var after := After(env, db, e);
            LikeEvents(after.events, contentId, actor) + (if Liked(db, contentId, actor) then 1 else 0)
            == LikeEvents(db.events, contentId, actor) + (if PostsLike(env, db, e, contentId, actor) then 1 else 0)
               + (if Unlikes(env, db, e, contentId, actor) then 1 else 0)
                 + (if Liked(after, contentId, actor) then 1 else 0)
  {
    LikedAfterStep(env, db, e, contentId, actor);
    OnlyAcceptedRequestsChange(env, db, e);
    RoutesDiffer(env, db, e);
    hide Valid, After, Actor.Valid, Actor.Key, Liked, LikeEvents, IsActivity, IsComment, Applied;
    if IsLikeChange(env, db, e) {
      LikeStep(env, db, e);
      AppliedLogs(db, e.moment.now, LikeRequest(env, db, e).value, PortalOf(env, e), contentId, actor);
    } else if IsActivity(env, db, e) {
      ActivityLogs(env, db, e, contentId, actor);
    } else if IsComment(env, db, e) {
      CommentLogs(env, db, e, contentId, actor);
    }
  }

  /** For every content and actor over every run: 'like' events in the log are the ones posted
      through /activity, one for each effective unlike, and one more if the like stands now. */
  lemma {:induction false} LikeConservation(env: Env, h: seq<Entry>, contentId: string, actor: Actor)
    requires actor.Valid()
    ensures LikeEvents(Run(env, h).events, contentId, actor) ==
            PostedLikes(env, h, contentId, actor) + EffectiveUnlikes(env, h, contentId, actor)
            + if Liked(Run(env, h), contentId, actor) then 1 else 0
  {
    if h != [] {
      LikeConservation(env, h[..|h| - 1], contentId, actor);
      RunIsValid(env, h[..|h| - 1]);
      BalanceStep(env, Run(env, h[..|h| - 1]), h[|h| - 1], contentId, actor);
      RunSnoc(env, h);
      hide Run, After, Valid, Liked, LikeRequest, LikeEvents, PostsLike, Unlikes, Actor.Valid;
    }
  }

  // ----- operations on different pairs commute -----

  function NoLikeId(l: LikeRow): LikeRow {
    l.(id := 0)
  }

  function NoEventId(e: Event): Event {
    e.(id := 0)
  }

  ghost function LikeBag(likes: seq<LikeRow>): multiset<LikeRow> {
    multiset(seq(|likes|, i requires 0 <= i < |likes| => NoLikeId(likes[i])))
  }

  ghost function EventBag(events: seq<Event>): multiset<Event> {
    multiset(seq(|events|, i requires 0 <= i < |events| => NoEventId(events[i])))
  }

  /** The same rows, up to generated ids and the order of rows. */
  ghost predicate SameUpToIds(a: Db, b: Db) {
    && LikeBag(a.likes) == LikeBag(b.likes)
    && EventBag(a.events) == EventBag(b.events)
    && a.(likes := [], events := [], nextLike := 0, nextEvent := 0) ==
       b.(likes := [], events := [], nextLike := 0, nextEvent := 0)
  }

  lemma LikeBagAppend(likes: seq<LikeRow>, row: LikeRow)
    ensures LikeBag(likes + [row]) == LikeBag(likes) + multiset{NoLikeId(row)}
  {
    var a := seq(|likes|, i requires 0 <= i < |likes| => NoLikeId(likes[i]));
    var all := likes + [row];
    assert seq(|all|, i requires 0 <= i < |all| => NoLikeId(all[i])) == a + [NoLikeId(row)];
  }

  lemma EventBagAppend(events: seq<Event>, event: Event)
    ensures EventBag(events + [event]) == EventBag(events) + multiset{NoEventId(event)}
  {
    var a := seq(|events|, i requires 0 <= i < |events| => NoEventId(events[i]));
    var all := events + [event];
    assert seq(|all|, i requires 0 <= i < |all| => NoEventId(all[i])) == a + [NoEventId(event)];
  }

  /** What an effective put adds, ids aside. */
  function RowFor(now: Time, op: LikeOp): LikeRow {
    LikeRow(0, op.contentId, op.actor.UserId(), op.actor.AnonymousId(), op.actor.Key(), now)
  }

  function EventFor(now: Time, op: LikeOp, portal: string): Event {
    Event(0, op.actor.UserId(), op.actor.AnonymousId(), portal, "like", Some(op.contentId), None, None, "{}", now, now)
  }

  predicate Effective(db: Db, op: LikeOp) {
    op.put && !Liked(db, op.contentId, op.actor)
  }

  /** The bags after one operation. */
  lemma AppliedBags(db: Db, now: Time, op: LikeOp, portal: string)
    ensures var after := Applied(db, now, op, portal);
            && after.(likes := [], events := [], nextLike := 0, nextEvent := 0) ==
               db.(likes := [], events := [], nextLike := 0, nextEvent := 0)
            && EventBag(after.events) == EventBag(db.events)
               + (if Effective(db, op) then multiset{EventFor(now, op, portal)} else multiset{})
            && (op.put ==>
                  LikeBag(after.likes) ==
                  LikeBag(db.likes) + (if Effective(db, op) then multiset{RowFor(now, op)} else multiset{}))
            && (!op.put ==> after.likes == Delete(db.likes, LikeIs(op.contentId, op.actor.Key())))
            && (op.put ==>
                  || after.likes == db.likes
                  || (&& |after.likes| == |db.likes| + 1
                      && after.likes == db.likes + [after.likes[|db.likes|]]
                      && NoLikeId(after.likes[|db.likes|]) == RowFor(now, op)))
            && (op.put ==> (after.likes == db.likes <==> !Effective(db, op)))
  {
    hide Actor.Key;
    if Effective(db, op) {
      var after := Applied(db, now, op, portal);
      LikeBagAppend(db.likes, after.likes[|db.likes|]);
      EventBagAppend(db.events, after.events[|db.events|]);
    }
  }

  /** Deleting another pair's row does not see a row that a put has added. */
  lemma PutThenDelete(db: Db, t: Time, put: LikeOp, p: string, u: Time, unlike: LikeOp, r: string)
    requires put.put && !unlike.put && put.actor.Valid() && unlike.actor.Valid()
    requires put.contentId != unlike.contentId || put.actor != unlike.actor
    ensures LikeBag(Applied(Applied(db, t, put, p), u, unlike, r).likes) ==
            LikeBag(Applied(Applied(db, u, unlike, r), t, put, p).likes)
  {
    var where := LikeIs(unlike.contentId, unlike.actor.Key());
    AppliedBags(db, t, put, p);
    AppliedBags(Applied(db, t, put, p), u, unlike, r);
    AppliedBags(db, u, unlike, r);
    AppliedBags(Applied(db, u, unlike, r), t, put, p);
    AppliedDecides(db, u, unlike, r, put.contentId, put.actor);
    ActorKeysAreFaithful(put.actor, unlike.actor);
    hide Applied, Actor.Key, Actor.Valid, LikeBag, EventBag;
    if Effective(db, put) {
      var row := Applied(db, t, put, p).likes[|db.likes|];
      assert row.actorKey == RowFor(t, put).actorKey && row.contentId == put.contentId;
      DeleteAppend(db.likes, row, where);
      LikeBagAppend(Delete(db.likes, where), row);
    }
  }

  /** Events and all other tables come out alike in either order; so do likes for two puts. */
  lemma BagsCommute(db: Db, t: Time, a: LikeOp, p: string, u: Time, b: LikeOp, r: string)
    requires a.actor.Valid() && b.actor.Valid()
    requires a.contentId != b.contentId || a.actor != b.actor
    ensures var x, y := Applied(Applied(db, t, a, p), u, b, r), Applied(Applied(db, u, b, r), t, a, p);
            && EventBag(x.events) == EventBag(y.events)
            && x.(likes := [], events := [], nextLike := 0, nextEvent := 0) ==
               y.(likes := [], events := [], nextLike := 0, nextEvent := 0)
            && (a.put && b.put ==> LikeBag(x.likes) == LikeBag(y.likes))
  {
    AppliedDecides(db, t, a, p, b.contentId, b.actor);
    AppliedDecides(db, u, b, r, a.contentId, a.actor);
    assert Effective(Applied(db, t, a, p), b) == Effective(db, b);
    assert Effective(Applied(db, u, b, r), a) == Effective(db, a);
    hide Applied, Actor.Valid, LikeBag, EventBag, Effective, RowFor, EventFor, Actor.Key, NoLikeId;
    AppliedBags(db, t, a, p);
    AppliedBags(Applied(db, t, a, p), u, b, r);
    AppliedBags(db, u, b, r);
    AppliedBags(Applied(db, u, b, r), t, a, p);
  }

  lemma UnlikesCommute(db: Db, t: Time, a: LikeOp, p: string, u: Time, b: LikeOp, r: string)
    requires !a.put && !b.put
    ensures Applied(Applied(db, t, a, p), u, b, r).likes == Applied(Applied(db, u, b, r), t, a, p).likes
  {
    DeletesCommute(db.likes, LikeIs(a.contentId, a.actor.Key()), LikeIs(b.contentId, b.actor.Key()));
  }

  /** Like operations on different contents or by different actors commute. */
  lemma OperationsCommute(db: Db, t: Time, a: LikeOp, p: string, u: Time, b: LikeOp, r: string)
    requires a.actor.Valid() && b.actor.Valid()
    requires a.contentId != b.contentId || a.actor != b.actor
    ensures SameUpToIds(Applied(Applied(db, t, a, p), u, b, r), Applied(Applied(db, u, b, r), t, a, p))
  {
    hide Applied, Actor.Valid, LikeBag, EventBag;
    BagsCommute(db, t, a, p, u, b, r);
    if a.put && !b.put {
      PutThenDelete(db, t, a, p, u, b, r);
    } else if !a.put && b.put {
      PutThenDelete(db, u, b, r, t, a, p);
    } else if !a.put && !b.put {
      UnlikesCommute(db, t, a, p, u, b, r);
    }
  }

  /** An accepted like request leaves callers and actors of other requests as they were. */
  lemma LikeKeepsCallers(env: Env, db: Db, e: Entry, f: Entry)
    requires IsLikeChange(env, db, e) && RouteOf(f).Like?
    ensures IsLikeChange(env, After(env, db, e), f) <==> IsLikeChange(env, db, f)
    ensures LikeRequest(env, After(env, db, e), f) == LikeRequest(env, db, f)
  {
    OnlyAcceptedRequestsChange(env, db, e);
    var after := After(env, db, e);
    assert after.users == db.users && after.sessions == db.sessions by {
      hide After, IsLikeChange;
      LikeIsNoAccountOrSession(env, db, e);
    }
    hide After;
    StepIsServe(env, db, f);
    StepIsServe(env, after, f);
    SameCallersSameReply(db, after, f, RouteOf(f).put, RouteOf(f).contentId, JsonFor(env, f));
    hide Step, Recognise, Reached, JsonFor, ChangeLike, ActorOf;
  }

  lemma SameCallersSameReply(a: Db, b: Db, f: Entry, put: bool, contentId: string, json: Option<Json.Value>)
    requires a.users == b.users && a.sessions == b.sessions
    ensures ActorOf(a, f.moment.authAt, f.request.authorization, json) ==
            ActorOf(b, f.moment.authAt, f.request.authorization, json)
    ensures ChangeLike(a, f, put, contentId, json).response == ChangeLike(b, f, put, contentId, json).response
  {
    hide Json.GetString, Validation.IsKey, LikeApplied, Owners, BearerToken;
  }

  lemma LikeIsNoAccountOrSession(env: Env, db: Db, e: Entry)
    requires IsLikeChange(env, db, e)
    ensures !IsRegistration(env, db, e) && !IsConfirmation(env, db, e) && !IsLogin(env, db, e) && !IsLogout(env, db, e)
  {
  }

  /** Two accepted like requests about different pairs give the same rows in either order, up to
      generated ids and row order, and are accepted in either order. */
  lemma LikeRequestsCommute(env: Env, db: Db, e: Entry, f: Entry)
    requires Valid(env, db) && IsLikeChange(env, db, e) && IsLikeChange(env, db, f)
    requires LikeRequest(env, db, e).Some? && LikeRequest(env, db, f).Some?
    requires LikeRequest(env, db, e).value.contentId != LikeRequest(env, db, f).value.contentId
             || LikeRequest(env, db, e).value.actor != LikeRequest(env, db, f).value.actor
    ensures IsLikeChange(env, After(env, db, e), f) && IsLikeChange(env, After(env, db, f), e)
    ensures SameUpToIds(After(env, After(env, db, e), f), After(env, After(env, db, f), e))
  {
    StepKeepsValid(env, db, e);
    StepKeepsValid(env, db, f);
    assert RouteOf(e).Like? && RouteOf(f).Like?;
    hide Valid, After, IsLikeChange, LikeRequest, Applied;
    LikeKeepsCallers(env, db, e, f);
    LikeKeepsCallers(env, db, f, e);
    LikeStep(env, db, e);
    LikeStep(env, db, f);
    LikeStep(env, After(env, db, e), f);
    LikeStep(env, After(env, db, f), e);
    OperationsCommute(db, e.moment.now, LikeRequest(env, db, e).value, PortalOf(env, e),
                      f.moment.now, LikeRequest(env, db, f).value, PortalOf(env, f));
  }
}
