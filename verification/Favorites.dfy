/** Favourites over whole runs: two sets for each user, listed in order. */
module Favorites {
  import opened Options
  import opened Tables
  import opened Uuids
  import opened Schema
  import opened Sorting
  import opened Router
  import opened Sql
  import opened Service
  import opened Invariant
  import opened Effects
  import Likes
  import Validation

  /** An accepted PUT or DELETE of a favourite. */
  datatype FavoriteOp = FavoriteOp(kind: Kind, user: Uuid, key: string, put: bool)

  function FavoriteRequest(env: Env, db: Db, e: Entry): Option<FavoriteOp> {
    if !IsFavoriteChange(env, db, e) then None
    else
      match CallerOf(db, e.moment.authAt, e.request.authorization)
      case SignedInAs(u) => Some(FavoriteOp(RouteOf(e).kind, u.id, RouteOf(e).key, RouteOf(e).put))
      case _ => None
  }

  predicate IsFavorite(db: Db, kind: Kind, user: Uuid, key: string) {
    Has(db.Favorites(kind), FavoriteIs(user, key))
  }

  lemma FavoriteStep(env: Env, db: Db, e: Entry)
    requires IsFavoriteChange(env, db, e)
    ensures FavoriteRequest(env, db, e).Some?
    ensures var op := FavoriteRequest(env, db, e).value;
            var rows := db.Favorites(op.kind);
            && Validation.IsKey(op.key, 160)
            && After(env, db, e) == db.WithFavorites(op.kind,
                 if !op.put then Delete(rows, FavoriteIs(op.user, op.key))
                 else if Has(rows, FavoriteIs(op.user, op.key)) then rows
                 else rows + [Favorite(op.user, op.key, e.moment.now)])
  {
    StepIsServe(env, db, e);
    hide Step, Recognise, Reached, JsonFor, CallerOf, Validation.IsKey, Has, Delete;
  }

  lemma FavoriteAfterStep(env: Env, db: Db, e: Entry, kind: Kind, user: Uuid, key: string)
    ensures IsFavorite(After(env, db, e), kind, user, key) <==>
            match FavoriteRequest(env, db, e)
            case Some(op) =>
              if op.kind == kind && op.user == user && op.key == key then op.put
              else IsFavorite(db, kind, user, key)
            case None => IsFavorite(db, kind, user, key)
  {
    OnlyAcceptedRequestsChange(env, db, e);
    if IsFavoriteChange(env, db, e) {
      FavoriteStep(env, db, e);
      hide After, IsFavoriteChange, FavoriteRequest, CallerOf, Validation.IsKey;
      var op := FavoriteRequest(env, db, e).value;
      var mine, theirs := FavoriteIs(op.user, op.key), FavoriteIs(user, key);
      var rows, after := db.Favorites(op.kind), After(env, db, e).Favorites(op.kind);
      if op.put && !Has(rows, mine) {
        var row := Favorite(op.user, op.key, e.moment.now);
        assert after == rows + [row] && mine(row);
        assert forall f :: f in after <==> f in rows || f == row;
      }
    }
  }

  /** What the last accepted change of this favourite asked for. */
  function LastFavorite(env: Env, h: seq<Entry>, kind: Kind, user: Uuid, key: string): Option<bool> {
    if h == [] then None
    else
      var front := h[..|h| - 1];
      match FavoriteRequest(env, Run(env, front), h[|h| - 1])
      case Some(op) =>
        if op.kind == kind && op.user == user && op.key == key then Some(op.put)
        else LastFavorite(env, front, kind, user, key)
      case None => LastFavorite(env, front, kind, user, key)
  }

  /** After any run a key is a favourite exactly when its last accepted change was a PUT; other
      users and the other kind have no say in it. */
  lemma {:induction false} FavoritesFollowHistory(env: Env, h: seq<Entry>, kind: Kind, user: Uuid, key: string)
    ensures IsFavorite(Run(env, h), kind, user, key) <==> LastFavorite(env, h, kind, user, key) == Some(true)
  {
    if h != [] {
      FavoritesFollowHistory(env, h[..|h| - 1], kind, user, key);
      FavoriteAfterStep(env, Run(env, h[..|h| - 1]), h[|h| - 1], kind, user, key);
      Likes.RunSnoc(env, h);
      hide Run, After, IsFavorite, FavoriteRequest;
    }
  }

  predicate AllDifferent(keys: seq<string>) {
    forall i, j :: 0 <= i < j < |keys| ==> keys[i] != keys[j]
  }

  lemma FavoriteKeysAreDistinct(users: seq<User>, rows: seq<Favorite>, user: Uuid)
    requires FavoritesOk(users, rows)
    ensures AllDifferent(KeysOf(Select(rows, FavoriteOf(user))))
    ensures forall k :: k in KeysOf(Select(rows, FavoriteOf(user))) <==> Has(rows, FavoriteIs(user, k))
  {
    hide FavoriteChecks, RefersTo;
    var mine := Select(rows, FavoriteOf(user));
    SelectKeepsPairs(rows, FavoriteOf(user), (a, b) => DifferentFavorites(a, b));
    forall i | 0 <= i < |mine| ensures mine[i].userId == user {
      assert mine[i] in mine;
    }
    forall i, j | 0 <= i < j < |mine| ensures mine[i].key != mine[j].key {
      assert DifferentFavorites(mine[i], mine[j]);
    }
    forall k ensures k in KeysOf(mine) <==> Has(rows, FavoriteIs(user, k)) {
      if k in KeysOf(mine) {
        var i :| 0 <= i < |mine| && KeysOf(mine)[i] == k;
        assert mine[i] in mine && FavoriteIs(user, k)(mine[i]);
      }
      if Has(rows, FavoriteIs(user, k)) {
        var f :| f in rows && FavoriteIs(user, k)(f);
        assert f in mine;
        var i :| 0 <= i < |mine| && mine[i] == f;
        assert KeysOf(mine)[i] == k;
      }
    }
  }

  lemma FavoritesOfRun(env: Env, h: seq<Entry>, kind: Kind)
    ensures FavoritesOk(Run(env, h).users, Run(env, h).Favorites(kind))
  {
    hide Run, UsersOk, AccountsOk, SessionsOk, FavoritesOk, EventsOk, LikesOk, CommentsOk;
    RunIsValid(env, h);
  }

  /** A list of favourites is the strictly ascending listing of the keys whose last accepted
      change, by this user and of this kind, was a PUT. */
  lemma FavoriteListIsSortedSet(env: Env, h: seq<Entry>, e: Entry, kind: Kind, u: User)
    requires env.Lawful() && RouteOf(e) == FavoriteList(kind) && Reached(env, e)
    requires CallerOf(Run(env, h), e.moment.authAt, e.request.authorization) == SignedInAs(u)
    ensures var reply := ReplyTo(env, Run(env, h), e);
            && reply.status == 200 && reply.payload.Keys?
            && StrictlySorted(reply.payload.keys, env.collate)
            && forall k :: k in reply.payload.keys <==> LastFavorite(env, h, kind, u.id, k) == Some(true)
  {
    hide Run, LastFavorite, StrictTotalOrder, CallerOf, FavoritesOk, Sorted, StrictlySorted, ReplyTo, Reached, Has;
    var db := Run(env, h);
    FavoritesOfRun(env, h, kind);
    FavoriteKeysAreDistinct(db.users, db.Favorites(kind), u.id);
    var keys := KeysOf(Select(db.Favorites(kind), FavoriteOf(u.id)));
    SortedIsSorted(keys, env.collate);
    forall k ensures k in keys <==> LastFavorite(env, h, kind, u.id, k) == Some(true) {
      FavoritesFollowHistory(env, h, kind, u.id, k);
    }
    ListReply(env, db, e, kind, u);
  }

  lemma ListReply(env: Env, db: Db, e: Entry, kind: Kind, u: User)
    requires RouteOf(e) == FavoriteList(kind) && Reached(env, e)
    requires CallerOf(db, e.moment.authAt, e.request.authorization) == SignedInAs(u)
    ensures var keys := KeysOf(Select(db.Favorites(kind), FavoriteOf(u.id)));
            ReplyTo(env, db, e) == Response(200, Keys(Sorted(keys, env.collate)))
  {
    StepIsServe(env, db, e);
    hide Step, Recognise, Reached, JsonFor, CallerOf, Sorted, Select;
  }
}
