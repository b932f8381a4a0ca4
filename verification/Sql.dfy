/** The SQL statements of the handlers. Each is atomic: it sees one state of the tables, and
    either all of its parts take effect or none. Parameters arrive as text, as `PQexecParams` sends them. */
module Sql {
  import opened Options
  import opened Text
  import opened Numbers
  import opened Uuids
  import opened Tables
  import opened Schema
  import opened Sorting
  import Router
  import TopContent

  /** `unique` says that the error is SQLSTATE 23505. */
  datatype Result<+T> = Tuples(rows: seq<T>) | Command | Failed(unique: bool)

  /** NULLIF(text, '') */
  function NullIfEmpty(text: string): Option<string> {
    if text == "" then None else Some(text)
  }

  /** NULLIF(text, '')::uuid; the outer `None` is a conversion error. */
  function NullableUuid(text: string): Option<Option<Uuid>> {
    if text == "" then Some(None)
    else match Parse(text)
         case None => None
         case Some(u) => Some(Some(u))
  }

  // ----- conditions -----

  function HasEmail(email: string): User -> bool {
    (u: User) => u.email == email
  }

  function IsConfirmed(id: Uuid): User -> bool {
    (u: User) => u.id == id && u.confirmedAt.Some?
  }

  function HasToken(token: Uuid): Token -> bool {
    (t: Token) => t.token == token
  }

  function TokenLive(token: Uuid, now: Time): Token -> bool {
    (t: Token) => t.token == token && t.consumedAt.None? && t.expiresAt > now
  }

  function Consume(now: Time): Token -> Token {
    (t: Token) => t.(consumedAt := Some(now))
  }

  function OwnerAmong(tokens: seq<Token>): User -> bool {
    (u: User) => exists t | t in tokens :: t.userId == u.id
  }

  function ConfirmUser(now: Time): User -> User {
    (u: User) => u.(confirmedAt := if u.confirmedAt.Some? then u.confirmedAt else Some(now), updatedAt := now)
  }

  function CanSignIn(env: Env, email: string, password: string): User -> bool {
    (u: User) => u.email == email && u.confirmedAt.Some? && u.passwordHash == env.crypt(password, u.passwordHash)
  }

  function SessionLive(token: Uuid, now: Time): Session -> bool {
    (s: Session) => s.token == token && s.revokedAt.None? && s.expiresAt > now
  }

  function SessionOpen(token: Uuid): Session -> bool {
    (s: Session) => s.token == token && s.revokedAt.None?
  }

  function Revoke(now: Time): Session -> Session {
    (s: Session) => s.(revokedAt := Some(now))
  }

  function FavoriteIs(user: Uuid, key: string): Favorite -> bool {
    (f: Favorite) => f.userId == user && f.key == key
  }

  function FavoriteOf(user: Uuid): Favorite -> bool {
    (f: Favorite) => f.userId == user
  }

  function LikeIs(contentId: string, actorKey: string): LikeRow -> bool {
    (l: LikeRow) => l.contentId == contentId && l.actorKey == actorKey
  }

  function CommentIs(id: Uuid): CommentRow -> bool {
    (c: CommentRow) => c.id == id
  }

  // ----- authentication.c -----

  /** auth_sessions s JOIN users u ON u.id = s.user_id, with the conditions of the query. */
  function Owners(sessions: seq<Session>, users: seq<User>, token: Uuid, now: Time): seq<User> {
    if sessions == [] then []
    else (if SessionLive(token, now)(sessions[0]) then Select(users, IsConfirmed(sessions[0].userId)) else [])
         + Owners(sessions[1..], users, token, now)
  }

  function IdAndEmail(users: seq<User>): seq<(string, string)> {
    seq(|users|, i requires 0 <= i < |users| => (Print(users[i].id), users[i].email))
  }

  function SelectSessionUser(db: Db, now: Time, token: string): Result<(string, string)> {
    if !IsUtf8(token) || Parse(token).None? then Failed(false)
    else Tuples(IdAndEmail(Owners(db.sessions, db.users, Parse(token).value, now)))
  }

  // ----- auth.c -----

  function InsertUser(env: Env, db: Db, m: Moment, email: string, password: string, displayName: string, ttl: string)
    : (Db, Result<(Uuid, Time)>)
  {
    if !(IsUtf8(email) && IsUtf8(password) && IsUtf8(displayName) && IsUtf8(ttl)) || ParseInt4(ttl).None? then
      (db, Failed(false))
    else
      var user := User(m.userId, email, displayName, env.crypt(password, m.salt), None, m.now, m.now);
      var token := Token(m.confirmationToken, m.userId, m.now + Hours(ParseInt4(ttl).value), None, m.now);
      if !UserChecks(env, user) then (db, Failed(false))
      else if Has(db.users, HasId(user.id)) || Has(db.users, HasEmail(email))
              || Has(db.tokens, HasToken(token.token)) then
        (db, Failed(true))
      else (db.(users := db.users + [user], tokens := db.tokens + [token]), Tuples([(token.token, token.expiresAt)]))
  }

  function ConsumeToken(db: Db, now: Time, token: string): (Db, Result<Uuid>) {
    if !IsUtf8(token) || Parse(token).None? then (db, Failed(false))
    else
      var live := TokenLive(Parse(token).value, now);
      var owner := OwnerAmong(Select(db.tokens, live));
      var confirmed := Select(db.users, owner);
      (db.(tokens := Update(db.tokens, live, Consume(now)), users := Update(db.users, owner, ConfirmUser(now))),
       Tuples(seq(|confirmed|, i requires 0 <= i < |confirmed| => confirmed[i].id)))
  }

  /** The rows inserted for a list of candidates. */
  function NewSessions(m: Moment, candidates: seq<User>, hours: int): seq<Session> {
    seq(|candidates|, i requires 0 <= i < |candidates| =>
      Session(m.sessionToken(i), candidates[i].id, m.now + Hours(hours), None, m.now, m.now))
  }

  predicate TokensDistinct(sessions: seq<Session>) {
    forall i, j :: 0 <= i < j < |sessions| ==> sessions[i].token != sessions[j].token
  }

  function InsertSessions(env: Env, db: Db, m: Moment, email: string, password: string, ttl: string)
    : (Db, Result<(Uuid, Time)>)
  {
    if !(IsUtf8(email) && IsUtf8(password) && IsUtf8(ttl)) || ParseInt4(ttl).None? then (db, Failed(false))
    else
      var rows := NewSessions(m, Select(db.users, CanSignIn(env, email, password)), ParseInt4(ttl).value);
      if !TokensDistinct(db.sessions + rows) then (db, Failed(true))
      else (db.(sessions := db.sessions + rows),
            Tuples(seq(|rows|, i requires 0 <= i < |rows| => (rows[i].token, rows[i].expiresAt))))
  }

  function RevokeSession(db: Db, now: Time, token: string): (Db, Result<()>) {
    if !IsUtf8(token) || Parse(token).None? then (db, Failed(false))
    else (db.(sessions := Update(db.sessions, SessionOpen(Parse(token).value), Revoke(now))), Command)
  }

  // ----- favorites.c -----

  function KeysOf(rows: seq<Favorite>): seq<string> {
    seq(|rows|, i requires 0 <= i < |rows| => rows[i].key)
  }

  function SelectFavorites(env: Env, db: Db, kind: Router.Kind, user: string): Result<string> {
    if !IsUtf8(user) || Parse(user).None? then Failed(false)
    else Tuples(Sorted(KeysOf(Select(db.Favorites(kind), FavoriteOf(Parse(user).value))), env.collate))
  }

  function InsertFavorite(db: Db, now: Time, kind: Router.Kind, user: string, key: string): (Db, Result<()>) {
    if !(IsUtf8(user) && IsUtf8(key)) || Parse(user).None? then (db, Failed(false))
    else
      var row := Favorite(Parse(user).value, key, now);
      if !FavoriteChecks(row) then (db, Failed(false))
      else if Has(db.Favorites(kind), FavoriteIs(row.userId, key)) then (db, Command)
      else if !RefersTo(db.users, Some(row.userId)) then (db, Failed(false))
      else (db.WithFavorites(kind, db.Favorites(kind) + [row]), Command)
  }

  function DeleteFavorite(db: Db, kind: Router.Kind, user: string, key: string): (Db, Result<()>) {
    if !(IsUtf8(user) && IsUtf8(key)) || Parse(user).None? then (db, Failed(false))
    else (db.WithFavorites(kind, Delete(db.Favorites(kind), FavoriteIs(Parse(user).value, key))), Command)
  }

  // ----- activity.c -----

  /** INSERT INTO activity_events, with the CHECK and REFERENCES constraints of the table. */
  function AddEvent(db: Db, e: Event): Option<Db> {
    if EventChecks(e) && RefersTo(db.users, e.userId) then
      Some(db.(events := db.events + [e], nextEvent := db.nextEvent + 1))
    else None
  }

  function InsertEvent(env: Env, db: Db, now: Time, user: string, anonymous: string, portal: string, eventType: string,
                       contentId: string, componentId: string, pageUrl: string, data: string): (Db, Result<nat>)
  {
    if !(IsUtf8(user) && IsUtf8(anonymous) && IsUtf8(portal) && IsUtf8(eventType) && IsUtf8(contentId)
         && IsUtf8(componentId) && IsUtf8(pageUrl) && IsUtf8(data)) || !env.jsonb(data)
       || NullableUuid(user).None?
    then (db, Failed(false))
    else
      var e := Event(db.nextEvent, NullableUuid(user).value, NullIfEmpty(anonymous), portal, eventType,
                     NullIfEmpty(contentId), NullIfEmpty(componentId), NullIfEmpty(pageUrl), data, now, now);
      match AddEvent(db, e)
      case None => (db, Failed(false))
      case Some(after) => (after, Tuples([e.id]))
  }

  /** The like and, when a row was added, its event. A conflict uses up an identity value. */
  function InsertLike(db: Db, now: Time, contentId: string, user: string, anonymous: string, actorKey: string,
                      portal: string): (Db, Result<nat>)
  {
    if !(IsUtf8(contentId) && IsUtf8(user) && IsUtf8(anonymous) && IsUtf8(actorKey) && IsUtf8(portal))
       || NullableUuid(user).None? then (db, Failed(false))
    else
      var row := LikeRow(db.nextLike, contentId, NullableUuid(user).value, NullIfEmpty(anonymous), actorKey, now);
      if !LikeChecks(row) then (db, Failed(false))
      else if Has(db.likes, LikeIs(contentId, actorKey)) then (db.(nextLike := db.nextLike + 1), Tuples([]))
      else if !RefersTo(db.users, row.userId) then (db, Failed(false))
      else
        var e := Event(db.nextEvent, row.userId, row.anonymousId, portal, "like", Some(contentId), None, None, "{}",
                       now, now);
        match AddEvent(db.(likes := db.likes + [row], nextLike := db.nextLike + 1), e)
        case None => (db, Failed(false))
        case Some(after) => (after, Tuples([e.id]))
  }

  function DeleteLike(db: Db, contentId: string, actorKey: string): (Db, Result<()>) {
    if !(IsUtf8(contentId) && IsUtf8(actorKey)) then (db, Failed(false))
    else (db.(likes := Delete(db.likes, LikeIs(contentId, actorKey))), Command)
  }

  function InsertComment(db: Db, m: Moment, contentId: string, user: string, anonymous: string, authorName: string,
                         body: string, portal: string): (Db, Result<(Uuid, Time)>)
  {
    if !(IsUtf8(contentId) && IsUtf8(user) && IsUtf8(anonymous) && IsUtf8(authorName) && IsUtf8(body)
         && IsUtf8(portal)) || NullableUuid(user).None? then (db, Failed(false))
    else
      var row := CommentRow(m.commentId, contentId, NullableUuid(user).value, NullIfEmpty(anonymous),
                            NullIfEmpty(authorName), body, m.now);
      if !CommentChecks(row) then (db, Failed(false))
      else if Has(db.comments, CommentIs(row.id)) then (db, Failed(true))
      else if !RefersTo(db.users, row.userId) then (db, Failed(false))
      else
        var e := Event(db.nextEvent, row.userId, row.anonymousId, portal, "comment", Some(contentId), None, None, "{}",
                       m.now, m.now);
        match AddEvent(db.(comments := db.comments + [row]), e)
        case None => (db, Failed(false))
        case Some(after) => (after, Tuples([(row.id, row.createdAt)]))
  }

  // ----- analytics.c -----

  function SelectTopContent(env: Env, db: Db, now: Time, portal: string, days: string, limit: string)
    : Result<TopContent.Row>
  {
    if !(IsUtf8(portal) && IsUtf8(days) && IsUtf8(limit)) || ParseInt4(days).None? || ParseInt4(limit).None?
       || ParseInt4(limit).value < 0
    then Failed(false)
    else
      var q := TopContent.Query(portal, now - Days(ParseInt4(days).value), ParseInt4(limit).value);
      Tuples(TopContent.Top(db.events, q, env.collate))
  }
}
