/** In a valid state, parameters that passed the handlers' validation satisfy every CHECK and
    foreign key: the statements fail only for text that is not UTF-8, and for generated keys
    that are already taken. */
module Statements {
  import opened Options
  import opened Text
  import opened Numbers
  import opened Uuids
  import opened Validation
  import opened Tables
  import opened Schema
  import opened Router
  import opened Sql
  import opened Service
  import opened Lookup
  import Sorting
  import TopContent

  lemma RegisterStatement(env: Env, db: Db, m: Moment, address: string, password: string, displayName: string,
                          hours: nat)
    requires 1 <= |displayName| <= 100 && hours <= 0xFFFF
    ensures var (after, result) := InsertUser(env, db, m, address, password, displayName, Decimal(hours));
            if !(IsUtf8(address) && IsUtf8(password) && IsUtf8(displayName)) || env.lower(address) != address then
              after == db && result == Failed(false)
            else if Has(db.users, HasEmail(address)) || Has(db.users, HasId(m.userId))
                    || Has(db.tokens, HasToken(m.confirmationToken)) then
              after == db && result == Failed(true)
            else
              && var user := User(m.userId, address, displayName, env.crypt(password, m.salt), None, m.now, m.now);
              && var token := Token(m.confirmationToken, m.userId, m.now + Hours(hours), None, m.now);
              && after == db.(users := db.users + [user], tokens := db.tokens + [token])
              && result == Tuples([(m.confirmationToken, m.now + Hours(hours))])
  {
    hide IsUtf8, CharLength, ParseInt4, Decimal, StrToL, StrToUL, Snprintf, Has;
    DecimalFits(hours);
    DecimalRoundTrip(hours);
    if IsUtf8(displayName) {
      ByteBoundsBoundCharacters(displayName);
    }
    var user := User(m.userId, address, displayName, env.crypt(password, m.salt), None, m.now, m.now);
    assert UserChecks(env, user) <==> IsUtf8(displayName) && env.lower(address) == address;
    hide UserChecks;
    var (after, result) := InsertUser(env, db, m, address, password, displayName, Decimal(hours));
    if !(IsUtf8(address) && IsUtf8(password) && IsUtf8(displayName)) || env.lower(address) != address {
      assert (after, result) == (db, Failed(false));
    } else if Has(db.users, HasEmail(address)) || Has(db.users, HasId(m.userId))
              || Has(db.tokens, HasToken(m.confirmationToken)) {
      assert (after, result) == (db, Failed(true));
    } else {
      assert result.Tuples?;
    }
  }

  lemma NoLiveToken(db: Db, now: Time, where: Token -> bool)
    requires Select(db.tokens, where) == []
    ensures Update(db.tokens, where, Consume(now)) == db.tokens
    ensures Select(db.users, OwnerAmong([])) == []
    ensures Update(db.users, OwnerAmong([]), ConfirmUser(now)) == db.users
  {
    forall i | 0 <= i < |db.tokens| ensures !where(db.tokens[i]) {
      assert db.tokens[i] !in Select(db.tokens, where);
    }
    SelectNothing(db.users, OwnerAmong([]));
  }

  lemma SameRowsUpdated<T>(rows: seq<T>, p: T -> bool, q: T -> bool, f: T -> T)
    requires forall x :: p(x) <==> q(x)
    ensures Update(rows, p, f) == Update(rows, q, f)
  {
  }

  lemma OneLiveToken(db: Db, now: Time, where: Token -> bool)
    requires forall i, j :: 0 <= i < j < |db.users| ==> db.users[i].id != db.users[j].id
    requires |db.tokens| == |db.users| && forall i :: 0 <= i < |db.tokens| ==> db.tokens[i].userId == db.users[i].id
    requires |Select(db.tokens, where)| == 1
    ensures var live := Select(db.tokens, where);
            && |Select(db.users, OwnerAmong(live))| == 1
            && Update(db.users, OwnerAmong(live), ConfirmUser(now)) ==
               Update(db.users, HasId(live[0].userId), ConfirmUser(now))
  {
    hide Update;
    var live := Select(db.tokens, where);
    assert live == [live[0]];
    forall u ensures OwnerAmong(live)(u) <==> HasId(live[0].userId)(u) {
      assert OwnerAmong(live)(u) ==> u.id == live[0].userId;
      assert live[0] in live;
    }
    SameRowsUpdated(db.users, OwnerAmong(live), HasId(live[0].userId), ConfirmUser(now));
    assert live[0] in live;
    var i :| 0 <= i < |db.tokens| && db.tokens[i] == live[0];
    SelectUnique(db.users, OwnerAmong(live));
    assert OwnerAmong(live)(db.users[i]);
  }

  /** Consuming a token touches one token and its one user, or nothing at all. */
  lemma ConfirmStatement(env: Env, db: Db, now: Time, text: string)
    requires Valid(env, db)
    ensures var (after, result) := ConsumeToken(db, now, text);
            if Parse(text).None? then after == db && result == Failed(false)
            else
              && after == ConfirmWith(db, now, Parse(text).value).db
              && result.Tuples?
              && (|result.rows| == 1 <==> |Select(db.tokens, TokenLive(Parse(text).value, now))| == 1)
  {
    hide Parse, IsUtf8;
    if Parse(text).Some? {
      ParsedIsAscii(text);
      AsciiIsUtf8(text);
      var where := TokenLive(Parse(text).value, now);
      SelectUnique(db.tokens, where);
      if |Select(db.tokens, where)| == 1 {
        OneLiveToken(db, now, where);
      } else {
        NoLiveToken(db, now, where);
      }
    }
  }

  lemma OneCandidate(env: Env, db: Db, address: string, password: string)
    requires Valid(env, db)
    ensures |Select(db.users, CanSignIn(env, address, password))| <= 1 && TokensDistinct(db.sessions)
  {
    hide UserChecks, AccountsOk, FavoritesOk, EventsOk, LikesOk, CommentsOk;
    SelectUnique(db.users, CanSignIn(env, address, password));
  }

  lemma LoginStatement(env: Env, db: Db, m: Moment, address: string, password: string, hours: nat)
    requires Valid(env, db) && hours <= 0xFFFF
    ensures var (after, result) := InsertSessions(env, db, m, address, password, Decimal(hours));
            var found := Select(db.users, CanSignIn(env, address, password));
            if !(IsUtf8(address) && IsUtf8(password)) then after == db && result == Failed(false)
            else if |found| != 1 then after == db && result == Tuples([])
            else if exists s | s in db.sessions :: s.token == m.sessionToken(0) then
              after == db && result == Failed(true)
            else
              var row := Session(m.sessionToken(0), found[0].id, m.now + Hours(hours), None, m.now, m.now);
              after == db.(sessions := db.sessions + [row]) && result == Tuples([(row.token, row.expiresAt)])
  {
    hide IsUtf8, ParseInt4, Decimal, StrToL, StrToUL, Snprintf, Valid, Select, CanSignIn, Hours, TokensDistinct;
    DecimalFits(hours);
    DecimalRoundTrip(hours);
    OneCandidate(env, db, address, password);
    var found := Select(db.users, CanSignIn(env, address, password));
    var rows := NewSessions(m, found, hours);
    if found == [] {
      assert rows == [] && db.sessions + rows == db.sessions;
    } else {
      assert rows == [Session(m.sessionToken(0), found[0].id, m.now + Hours(hours), None, m.now, m.now)];
      SessionTokensDistinct(db.sessions, rows[0]);
    }
  }

  lemma SessionTokensDistinct(sessions: seq<Session>, row: Session)
    requires TokensDistinct(sessions)
    ensures TokensDistinct(sessions + [row]) <==> forall s :: s in sessions ==> s.token != row.token
  {
    var all := sessions + [row];
    if TokensDistinct(all) {
      forall s | s in sessions ensures s.token != row.token {
        var i :| 0 <= i < |sessions| && sessions[i] == s;
        assert all[i].token != all[|sessions|].token;
      }
    }
  }

  lemma FavoriteStatement(db: Db, now: Time, kind: Kind, user: Uuid, key: string)
    requires RefersTo(db.users, Some(user)) && IsKey(key, 160)
    ensures InsertFavorite(db, now, kind, Print(user), key) ==
            (if Has(db.Favorites(kind), FavoriteIs(user, key)) then db
             else db.WithFavorites(kind, db.Favorites(kind) + [Favorite(user, key, now)]), Command)
    ensures DeleteFavorite(db, kind, Print(user), key) ==
            (db.WithFavorites(kind, Delete(db.Favorites(kind), FavoriteIs(user, key))), Command)
  {
    hide IsUtf8, CharLength, Parse, Uuids.Print;
    ParsePrinted(user);
    AsciiIsUtf8(Print(user));
    KeysAreAscii(key, 160);
  }

  lemma FavoriteListStatement(env: Env, db: Db, kind: Kind, user: Uuid)
    ensures SelectFavorites(env, db, kind, Print(user)) ==
            Tuples(Sorting.Sorted(KeysOf(Select(db.Favorites(kind), FavoriteOf(user))), env.collate))
  {
    hide IsUtf8, Parse, Uuids.Print;
    ParsePrinted(user);
    AsciiIsUtf8(Print(user));
  }

  /** Events for a real actor, a valid portal and a listed type are always accepted. */
  lemma EventsAreAccepted(db: Db, now: Time, actor: Actor, portal: string, eventType: string, contentId: Option<string>,
                          componentId: Option<string>, pageUrl: Option<string>, data: string)
    requires actor.Valid() && RefersTo(db.users, actor.UserId()) && IsKey(portal, 120) && eventType in EVENT_TYPES
    ensures var event := NewEvent(db, now, actor, portal, eventType, contentId, componentId, pageUrl, data);
            EventChecks(event) && AddEvent(db, event) == Some(Append(db, event))
  {
    KeysAreAscii(portal, 120);
    ActorTexts(actor);
  }

  lemma ListedTypesAreText(eventType: string)
    requires EventType(Some(eventType))
    ensures eventType in EVENT_TYPES && IsUtf8(eventType)
  {
    EventTypesAreListed(eventType);
    AsciiIsUtf8(eventType);
  }

  lemma ActivityStatement(env: Env, db: Db, now: Time, actor: Actor, user: string, anonymous: string, portal: string,
                          eventType: string, contentId: string, componentId: string, pageUrl: string, data: string)
    requires actor.Valid() && RefersTo(db.users, actor.UserId())
    requires user == actor.UserText() && anonymous == actor.AnonymousText()
    requires IsKey(portal, 120) && EventType(Some(eventType))
    ensures InsertEvent(env, db, now, user, anonymous, portal, eventType, contentId, componentId, pageUrl, data) ==
            if !(IsUtf8(contentId) && IsUtf8(componentId) && IsUtf8(pageUrl) && IsUtf8(data)) || !env.jsonb(data) then
              (db, Failed(false))
            else
              (Append(db, NewEvent(db, now, actor, portal, eventType, NullIfEmpty(contentId), NullIfEmpty(componentId),
                                   NullIfEmpty(pageUrl), data)),
               Tuples([db.nextEvent]))
  {
    hide IsUtf8, CharLength, Parse, Uuids.Print, NullableUuid, NullIfEmpty, EventType, AddEvent, EventChecks, Has,
         Actor.Key, Actor.UserText, Actor.AnonymousText;
    ActorTexts(actor);
    KeysAreAscii(portal, 120);
    ListedTypesAreText(eventType);
    EventsAreAccepted(db, now, actor, portal, eventType, NullIfEmpty(contentId), NullIfEmpty(componentId),
                      NullIfEmpty(pageUrl), data);
  }

  lemma LikeStatement(db: Db, now: Time, actor: Actor, user: string, anonymous: string, contentId: string,
                      portal: string)
    requires actor.Valid() && RefersTo(db.users, actor.UserId())
    requires user == actor.UserText() && anonymous == actor.AnonymousText()
    requires IsKey(contentId, 300) && IsKey(portal, 120)
    ensures InsertLike(db, now, contentId, user, anonymous, actor.Key(), portal).0 ==
            LikeApplied(db, now, true, contentId, actor, portal)
    ensures InsertLike(db, now, contentId, user, anonymous, actor.Key(), portal).1.Tuples?
  {
    hide IsUtf8, CharLength, Parse, Uuids.Print, NullableUuid, NullIfEmpty, EventType, AddEvent, EventChecks, Has,
         Actor.Key, Actor.UserText, Actor.AnonymousText;
    ActorTexts(actor);
    KeysAreAscii(contentId, 300);
    KeysAreAscii(portal, 120);
    var row := LikeRow(db.nextLike, contentId, actor.UserId(), actor.AnonymousId(), actor.Key(), now);
    EventsAreAccepted(db.(likes := db.likes + [row], nextLike := db.nextLike + 1), now, actor, portal, "like",
                      Some(contentId), None, None, "{}");
  }

  lemma UnlikeStatement(db: Db, now: Time, actor: Actor, contentId: string, portal: string)
    requires actor.Valid() && IsKey(contentId, 300)
    ensures DeleteLike(db, contentId, actor.Key()) == (LikeApplied(db, now, false, contentId, actor, portal), Command)
  {
    ActorTexts(actor);
    KeysAreAscii(contentId, 300);
  }

  lemma CommentStatement(db: Db, m: Moment, actor: Actor, user: string, anonymous: string, contentId: string,
                         authorName: string, body: string, portal: string)
    requires actor.Valid() && RefersTo(db.users, actor.UserId())
    requires user == actor.UserText() && anonymous == actor.AnonymousText()
    requires IsKey(contentId, 300) && IsKey(portal, 120) && 1 <= |body| <= 5000
    ensures InsertComment(db, m, contentId, user, anonymous, authorName, body, portal) ==
            if !(IsUtf8(authorName) && IsUtf8(body)) then (db, Failed(false))
            else if Has(db.comments, CommentIs(m.commentId)) then (db, Failed(true))
            else
              var row := CommentRow(m.commentId, contentId, actor.UserId(), actor.AnonymousId(),
                                    NullIfEmpty(authorName), body, m.now);
              (Append(db.(comments := db.comments + [row]),
                      NewEvent(db, m.now, actor, portal, "comment", Some(contentId), None, None, "{}")),
               Tuples([(m.commentId, m.now)]))
  {
    hide IsUtf8, CharLength, Parse, Uuids.Print, NullableUuid, NullIfEmpty, EventType, AddEvent, EventChecks, Has,
         Actor.Key, Actor.UserText, Actor.AnonymousText;
    ActorTexts(actor);
    KeysAreAscii(contentId, 300);
    KeysAreAscii(portal, 120);
    var row := CommentRow(m.commentId, contentId, actor.UserId(), actor.AnonymousId(), NullIfEmpty(authorName), body,
                          m.now);
    EventsAreAccepted(db.(comments := db.comments + [row]), m.now, actor, portal, "comment", Some(contentId), None,
                      None, "{}");
    if IsUtf8(body) {
      ByteBoundsBoundCharacters(body);
    }
  }

  lemma TopContentStatement(env: Env, db: Db, now: Time, portal: string, days: nat, limit: nat)
    requires IsKey(portal, 120) && days <= 365 && limit <= 100
    ensures SelectTopContent(env, db, now, portal, Decimal(days), Decimal(limit)) ==
            Tuples(TopContent.Top(db.events, TopContent.Query(portal, now - Days(days), limit), env.collate))
  {
    hide IsUtf8, ParseInt4, Decimal, StrToL, StrToUL, Snprintf, TopContent.Top;
    KeysAreAscii(portal, 120);
    DecimalFits(days);
    DecimalRoundTrip(days);
    DecimalFits(limit);
    DecimalRoundTrip(limit);
  }
}
