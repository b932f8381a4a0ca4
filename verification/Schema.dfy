/** db/init.sql: the rows, and the constraints that every statement is held to. */
module Schema {
  import opened Options
  import opened Text
  import opened Uuids
  import opened Tables
  import opened Validation
  import Json
  import Router

  /** Microseconds. */
  type Time = int

  /** n * interval '1 hour' */
  function Hours(n: int): Time {
    3_600_000_000 * n
  }

  /** n * interval '1 day' */
  function Days(n: int): Time {
    86_400_000_000 * n
  }

  datatype User = User(id: Uuid, email: string, displayName: string, passwordHash: string,
                       confirmedAt: Option<Time>, createdAt: Time, updatedAt: Time)

  datatype Token = Token(token: Uuid, userId: Uuid, expiresAt: Time, consumedAt: Option<Time>, createdAt: Time)

  datatype Session = Session(token: Uuid, userId: Uuid, expiresAt: Time, revokedAt: Option<Time>,
                             createdAt: Time, lastSeenAt: Time)

  datatype Favorite = Favorite(userId: Uuid, key: string, createdAt: Time)

  datatype Event = Event(id: nat, userId: Option<Uuid>, anonymousId: Option<string>, portalKey: string,
                         eventType: string, contentId: Option<string>, componentId: Option<string>,
                         pageUrl: Option<string>, eventData: string, occurredAt: Time, receivedAt: Time)

  datatype LikeRow = LikeRow(id: nat, contentId: string, userId: Option<Uuid>, anonymousId: Option<string>,
                             actorKey: string, createdAt: Time)

  datatype CommentRow = CommentRow(id: Uuid, contentId: string, userId: Option<Uuid>, anonymousId: Option<string>,
                                   authorName: Option<string>, body: string, createdAt: Time)

  /** The tables, each a sequence of rows, and the two identity sequences. */
  datatype Db = Db(users: seq<User>, tokens: seq<Token>, sessions: seq<Session>,
                   sections: seq<Favorite>, tags: seq<Favorite>, events: seq<Event>,
                   likes: seq<LikeRow>, comments: seq<CommentRow>, nextEvent: nat, nextLike: nat)
  {
    function Favorites(kind: Router.Kind): seq<Favorite> {
      if kind.Tag? then tags else sections
    }

    function WithFavorites(kind: Router.Kind, rows: seq<Favorite>): Db {
      if kind.Tag? then this.(tags := rows) else this.(sections := rows)
    }

    /** What a query can see: identity sequences are not rows. */
    function Rows(): Db {
      this.(nextEvent := 0, nextLike := 0)
    }
  }

  const EMPTY := Db([], [], [], [], [], [], [], [], 0, 0)

  /** What the model takes from outside: `crypt`, `lower` and the collation of PostgreSQL, the
      tokenizer of json-c, and whether a text is acceptable as `jsonb`. */
  datatype Env = Env(crypt: (string, string) -> string, lower: string -> string,
                     collate: (string, string) -> bool, tokener: Json.Tokener, jsonb: string -> bool)
  {
    ghost predicate Lawful() {
      && (forall p, s :: crypt(p, crypt(p, s)) == crypt(p, s))
      && (forall s :: IsAscii(s) ==> lower(s) == Lower(s))
      && StrictTotalOrder(collate)
      && jsonb("{}")
    }
  }

  ghost predicate StrictTotalOrder(less: (string, string) -> bool) {
    && (forall a :: !less(a, a))
    && (forall a, b, c :: less(a, b) && less(b, c) ==> less(a, c))
    && (forall a, b :: a == b || less(a, b) || less(b, a))
  }

  /** The order of the "C" collation, one that a database may be created with. */
  function ByteOrder(a: string, b: string): bool {
    b != "" && (a == "" || a[0] < b[0] || (a[0] == b[0] && ByteOrder(a[1..], b[1..])))
  }

  lemma {:induction false} ByteOrderTransitive(a: string, b: string, c: string)
    requires ByteOrder(a, b) && ByteOrder(b, c)
    ensures ByteOrder(a, c)
  {
    if a != "" && a[0] == b[0] && b[0] == c[0] {
      ByteOrderTransitive(a[1..], b[1..], c[1..]);
    }
  }

  lemma {:induction false} ByteOrderTotal(a: string, b: string)
    ensures ByteOrder(a, b) || ByteOrder(b, a) <==> a != b
    ensures !(ByteOrder(a, b) && ByteOrder(b, a))
  {
    if a != "" && b != "" && a[0] == b[0] {
      ByteOrderTotal(a[1..], b[1..]);
      assert a == [a[0]] + a[1..] && b == [b[0]] + b[1..];
    }
  }

  /** The assumptions about the outside can be met together, with any tokenizer and any test of `jsonb`
      that lets the empty object pass. */
  lemma LawfulIsPossible(tokener: Json.Tokener, jsonb: string -> bool)
    requires jsonb("{}")
    ensures Env((password, salt) => password, Lower, ByteOrder, tokener, jsonb).Lawful()
  {
    forall a ensures !ByteOrder(a, a) {
      ByteOrderTotal(a, a);
    }
    forall a, b, c | ByteOrder(a, b) && ByteOrder(b, c) ensures ByteOrder(a, c) {
      ByteOrderTransitive(a, b, c);
    }
    forall a, b ensures a == b || ByteOrder(a, b) || ByteOrder(b, a) {
      ByteOrderTotal(a, b);
    }
  }

  /** What one request draws from the clock and from the random generators of PostgreSQL. The
      bearer token is looked up at `authAt`, the statement of the route runs at `now`. */
  datatype Moment = Moment(authAt: Time, now: Time, userId: Uuid, confirmationToken: Uuid,
                           sessionToken: nat -> Uuid, commentId: Uuid, salt: string, connected: bool)

  // ----- actors -----

  datatype Actor = Account(id: Uuid) | Visitor(anonymousId: string) {
    function UserId(): Option<Uuid> {
      if Account? then Some(id) else None
    }

    function AnonymousId(): Option<string> {
      if Visitor? then Some(anonymousId) else None
    }

    /** The texts that a statement gets for the two columns; "" stands for NULL. */
    function UserText(): string {
      if Account? then Print(id) else ""
    }

    function AnonymousText(): string {
      if Account? then "" else anonymousId
    }

    function Key(): string {
      if Account? then "u:" + Print(id) else "a:" + anonymousId
    }

    predicate Valid() {
      Visitor? ==> IsAnonymousId(anonymousId)
    }
  }

  const ACTOR_KEY_BUFFER: nat := 205

  lemma ActorKeyShape(a: Actor)
    requires a.Valid()
    ensures 2 < |a.Key()| < ACTOR_KEY_BUFFER && IsUtf8(a.Key())
    ensures a.Key()[0] == if a.Account? then 'u' else 'a'
    ensures a.Key()[2..] == if a.Account? then Print(a.id) else a.anonymousId
  {
    if a.Account? {
      ParsePrinted(a.id);
    }
    AsciiIsUtf8(a.Key());
  }

  /** Actor keys fit their buffer untruncated, and different actors have different keys. */
  lemma ActorKeysAreFaithful(a: Actor, b: Actor)
    requires a.Valid() && b.Valid()
    ensures 2 < |a.Key()| < ACTOR_KEY_BUFFER && IsUtf8(a.Key())
    ensures a.Key() == b.Key() ==> a == b
  {
    ActorKeyShape(a);
    ActorKeyShape(b);
    if a.Key() == b.Key() && a.Account? && b.Account? {
      PrintInjective(a.id, b.id);
    }
  }

  // ----- CHECK constraints -----

  predicate LengthWithin(s: string, low: nat, high: nat) {
    IsUtf8(s) && low <= CharLength(s) <= high
  }

  predicate UserChecks(env: Env, u: User) {
    u.email == env.lower(u.email) && LengthWithin(u.displayName, 1, 100)
  }

  predicate FavoriteChecks(f: Favorite) {
    LengthWithin(f.key, 1, 160)
  }

  predicate EventChecks(e: Event) {
    && (e.userId.Some? || e.anonymousId.Some?)
    && LengthWithin(e.portalKey, 1, 120)
    && e.eventType in EVENT_TYPES
    && (e.anonymousId.None? || LengthWithin(e.anonymousId.value, 8, 200))
  }

  predicate LikeChecks(l: LikeRow) {
    l.userId.Some? || l.anonymousId.Some?
  }

  predicate CommentChecks(c: CommentRow) {
    (c.userId.Some? || c.anonymousId.Some?) && LengthWithin(c.body, 1, 5000)
  }

  /** REFERENCES users(id), where NULL refers to nothing. */
  predicate RefersTo(users: seq<User>, id: Option<Uuid>) {
    id.None? || Has(users, HasId(id.value))
  }

  function HasId(id: Uuid): User -> bool {
    (u: User) => u.id == id
  }

  // ----- the state that all routes keep -----

  ghost predicate UsersOk(env: Env, users: seq<User>) {
    && (forall i, j :: 0 <= i < j < |users| ==> users[i].id != users[j].id)
    && (forall i, j :: 0 <= i < j < |users| ==> users[i].email != users[j].email)
    && (forall i :: 0 <= i < |users| ==> UserChecks(env, users[i]) && |users[i].email| <= 254)
  }

  /** Users and confirmation tokens correspond one to one, in order of registration; a user
      carries the instant at which its token was consumed, always before that token expired. */
  ghost predicate AccountsOk(users: seq<User>, tokens: seq<Token>) {
    && |tokens| == |users|
    && (forall i :: 0 <= i < |tokens| ==>
          tokens[i].userId == users[i].id && tokens[i].consumedAt == users[i].confirmedAt)
    && (forall i :: 0 <= i < |tokens| ==> tokens[i].consumedAt.Some? ==>
        tokens[i].consumedAt.value < tokens[i].expiresAt)
    && (forall i, j :: 0 <= i < j < |tokens| ==> tokens[i].token != tokens[j].token)
  }

  ghost predicate SessionsOk(users: seq<User>, sessions: seq<Session>) {
    && (forall i, j :: 0 <= i < j < |sessions| ==> sessions[i].token != sessions[j].token)
    && (forall i :: 0 <= i < |sessions| ==> ConfirmedIn(users, sessions[i].userId))
  }

  ghost predicate ConfirmedIn(users: seq<User>, id: Uuid) {
    exists u :: u in users && u.id == id && u.confirmedAt.Some?
  }

  ghost predicate FavoritesOk(users: seq<User>, rows: seq<Favorite>) {
    && (forall i, j :: 0 <= i < j < |rows| ==> DifferentFavorites(rows[i], rows[j]))
    && (forall i :: 0 <= i < |rows| ==> FavoriteChecks(rows[i]) && RefersTo(users, Some(rows[i].userId)))
  }

  predicate DifferentFavorites(a: Favorite, b: Favorite) {
    a.userId != b.userId || a.key != b.key
  }

  ghost predicate EventsOk(users: seq<User>, events: seq<Event>, next: nat) {
    && (forall i, j :: 0 <= i < j < |events| ==> events[i].id < events[j].id)
    && (forall i :: 0 <= i < |events| ==> events[i].id < next)
    && (forall i :: 0 <= i < |events| ==> EventChecks(events[i]) && RefersTo(users, events[i].userId))
  }

  /** Each like row is the row of exactly one actor, and no actor likes a content twice. */
  ghost predicate LikesOk(users: seq<User>, likes: seq<LikeRow>, next: nat) {
    && (forall i, j :: 0 <= i < j < |likes| ==> DifferentLikes(likes[i], likes[j]))
    && (forall i :: 0 <= i < |likes| ==> likes[i].id < next)
    && (forall i :: 0 <= i < |likes| ==> LikeChecks(likes[i]) && RefersTo(users, likes[i].userId))
    && (forall i :: 0 <= i < |likes| ==> HasActor(likes[i]))
  }

  ghost predicate HasActor(row: LikeRow) {
    exists a: Actor :: a.Valid() && IsLikeOf(row, a)
  }

  predicate DifferentLikes(a: LikeRow, b: LikeRow) {
    a.id < b.id && (a.contentId != b.contentId || a.actorKey != b.actorKey)
  }

  predicate IsLikeOf(row: LikeRow, a: Actor) {
    row.userId == a.UserId() && row.anonymousId == a.AnonymousId() && row.actorKey == a.Key()
  }

  ghost predicate CommentsOk(users: seq<User>, comments: seq<CommentRow>) {
    && (forall i, j :: 0 <= i < j < |comments| ==> comments[i].id != comments[j].id)
    && (forall i :: 0 <= i < |comments| ==> CommentChecks(comments[i]) && RefersTo(users, comments[i].userId))
  }

  /** Every key, foreign key, uniqueness and CHECK constraint, and the account correspondence. */
  ghost predicate Valid(env: Env, db: Db) {
    && UsersOk(env, db.users)
    && AccountsOk(db.users, db.tokens)
    && SessionsOk(db.users, db.sessions)
    && FavoritesOk(db.users, db.sections)
    && FavoritesOk(db.users, db.tags)
    && EventsOk(db.users, db.events, db.nextEvent)
    && LikesOk(db.users, db.likes, db.nextLike)
    && CommentsOk(db.users, db.comments)
  }

  /** The constraints of the tables, one by one. */
  lemma ConstraintsHold(env: Env, db: Db)
    requires Valid(env, db)
    ensures forall i, j :: 0 <= i < j < |db.users| ==>
              db.users[i].id != db.users[j].id && db.users[i].email != db.users[j].email
    ensures forall u :: u in db.users ==>
              u.email == env.lower(u.email) && IsUtf8(u.displayName) && 1 <= CharLength(u.displayName) <= 100
    ensures forall i, j :: 0 <= i < j < |db.tokens| ==> db.tokens[i].token != db.tokens[j].token
    ensures forall i, j :: 0 <= i < j < |db.sessions| ==> db.sessions[i].token != db.sessions[j].token
    ensures forall t :: t in db.tokens ==> exists u :: u in db.users && u.id == t.userId
    ensures forall s :: s in db.sessions ==> exists u :: u in db.users && u.id == s.userId
  {
    hide FavoritesOk, EventsOk, LikesOk, CommentsOk, IsUtf8, CharLength;
    assert forall i :: 0 <= i < |db.tokens| ==> db.users[i] in db.users;
  }

  lemma FavoriteConstraintsHold(env: Env, db: Db, rows: seq<Favorite>)
    requires Valid(env, db) && (rows == db.sections || rows == db.tags)
    ensures forall i, j :: 0 <= i < j < |rows| ==> rows[i].userId != rows[j].userId || rows[i].key != rows[j].key
    ensures forall f :: f in rows ==>
              && IsUtf8(f.key) && 1 <= CharLength(f.key) <= 160
              && exists u :: u in db.users && u.id == f.userId
  {
    hide UsersOk, AccountsOk, SessionsOk, EventsOk, LikesOk, CommentsOk, IsUtf8, CharLength;
  }

  /** Likewise for events, likes and comments, whose actor may be a user or a visitor. */
  lemma ContributionConstraintsHold(env: Env, db: Db)
    requires Valid(env, db)
    ensures forall i, j :: 0 <= i < j < |db.events| ==> db.events[i].id != db.events[j].id
    ensures forall e :: e in db.events ==>
              && (e.userId.Some? || e.anonymousId.Some?)
              && IsUtf8(e.portalKey) && 1 <= CharLength(e.portalKey) <= 120
              && e.eventType in ["page_view", "content_view", "component_click", "like", "comment"]
              && (e.anonymousId.Some? ==> IsUtf8(e.anonymousId.value) && 8 <= CharLength(e.anonymousId.value) <= 200)
              && (e.userId.Some? ==> exists u :: u in db.users && u.id == e.userId.value)
    ensures forall i, j :: 0 <= i < j < |db.likes| ==>
              && db.likes[i].id != db.likes[j].id
              && (db.likes[i].contentId != db.likes[j].contentId || db.likes[i].actorKey != db.likes[j].actorKey)
    ensures forall l :: l in db.likes ==>
              && (l.userId.Some? || l.anonymousId.Some?)
              && (l.userId.Some? ==> exists u :: u in db.users && u.id == l.userId.value)
    ensures forall i, j :: 0 <= i < j < |db.comments| ==> db.comments[i].id != db.comments[j].id
    ensures forall c :: c in db.comments ==>
              && (c.userId.Some? || c.anonymousId.Some?)
              && IsUtf8(c.body) && 1 <= CharLength(c.body) <= 5000
              && (c.userId.Some? ==> exists u :: u in db.users && u.id == c.userId.value)
  {
    hide UsersOk, AccountsOk, SessionsOk, FavoritesOk, IsUtf8, CharLength, HasActor;
  }

  /** A stored actor key names one actor: the uniqueness of (content, key) is per real actor. */
  lemma LikesAreUniquePerActor(env: Env, db: Db, i: nat, j: nat, a: Actor)
    requires Valid(env, db) && i < |db.likes| && j < |db.likes| && a.Valid()
    requires db.likes[i].contentId == db.likes[j].contentId
    requires IsLikeOf(db.likes[i], a)
    ensures db.likes[i].userId.Some? <==> db.likes[i].anonymousId.None?
    ensures db.likes[j].actorKey == a.Key() <==> i == j
    ensures db.likes[j].actorKey == a.Key() <==> IsLikeOf(db.likes[j], a)
  {
    assert HasActor(db.likes[j]);
    var b: Actor :| b.Valid() && IsLikeOf(db.likes[j], b);
    ActorKeysAreFaithful(a, b);
    assert i < j ==> DifferentLikes(db.likes[i], db.likes[j]);
    assert j < i ==> DifferentLikes(db.likes[j], db.likes[i]);
  }
}
