/** The query of src/http/routes/analytics.c: filter, group, count, order and limit the event log. */
module TopContent {
  import opened Options
  import opened Schema

  datatype Query = Query(portal: string, since: Time, limit: nat)

  datatype Row = Row(id: string, views: nat)

  type Less = (string, string) -> bool

  predicate IsView(e: Event, q: Query) {
    && e.portalKey == q.portal
    && e.contentId.Some?
    && (e.eventType == "content_view" || e.eventType == "page_view")
    && e.occurredAt >= q.since
  }

  /** Views of one content by one event: one or none. */
  function Views(e: Event, q: Query, id: string): nat {
    if IsView(e, q) && e.contentId == Some(id) then 1 else 0
  }

  function Count(events: seq<Event>, q: Query, id: string): nat {
    if events == [] then 0
    else Count(events[..|events| - 1], q, id) + Views(events[|events| - 1], q, id)
  }

  function RowOf(events: seq<Event>, q: Query, id: string): Row {
    Row(id, Count(events, q, id))
  }

  /** ORDER BY count DESC, id ASC */
  predicate Before(a: Row, b: Row, less: Less) {
    a.views > b.views || (a.views == b.views && less(a.id, b.id))
  }

  predicate Ranked(rows: seq<Row>, less: Less) {
    forall i, j :: 0 <= i < j < |rows| ==> Before(rows[i], rows[j], less)
  }

  ghost predicate Listed(rows: seq<Row>, id: string) {
    exists i :: 0 <= i < |rows| && rows[i].id == id
  }

  ghost predicate Counted(rows: seq<Row>, events: seq<Event>, q: Query) {
    forall i :: 0 <= i < |rows| ==> rows[i] == RowOf(events, q, rows[i].id) && rows[i].views > 0
  }

  /** The answer, said without an algorithm: true positive counts in strict order, no more than
      the limit, and whoever is missing ranks behind everyone listed. */
  ghost predicate IsTop(items: seq<Row>, events: seq<Event>, q: Query, less: Less) {
    && |items| <= q.limit
    && Counted(items, events, q)
    && Ranked(items, less)
    && (forall id :: Count(events, q, id) > 0 && !Listed(items, id) ==>
          |items| == q.limit && ComesLast(items, RowOf(events, q, id), less))
  }

  ghost predicate ComesLast(items: seq<Row>, row: Row, less: Less) {
    forall i :: 0 <= i < |items| ==> Before(items[i], row, less)
  }

  /** All groups, in order. */
  ghost predicate IsRanking(rows: seq<Row>, events: seq<Event>, q: Query, less: Less) {
    && Counted(rows, events, q)
    && Ranked(rows, less)
    && (forall id :: Count(events, q, id) > 0 ==> Listed(rows, id))
  }

  // ----- the answer is unique -----

  lemma BeforeIsStrictOrder(a: Row, b: Row, c: Row, less: Less)
    requires StrictTotalOrder(less)
    ensures !(Before(a, b, less) && Before(b, a, less))
    ensures Before(a, b, less) && Before(b, c, less) ==> Before(a, c, less)
    ensures a.id == b.id || Before(a, b, less) || Before(b, a, less)
  {
  }

  lemma DisagreementRanksBothWays(a: seq<Row>, b: seq<Row>, events: seq<Event>, q: Query, less: Less, i: nat)
    requires StrictTotalOrder(less) && IsTop(a, events, q, less) && IsTop(b, events, q, less)
    requires i < |a| && i <= |b| && a[..i] == b[..i]
    ensures i < |b| && (a[i] == b[i] || Before(b[i], a[i], less))
  {
    assert forall k :: 0 <= k < i ==> a[k] == a[..i][k] && b[k] == a[k];
    assert a[i] == RowOf(events, q, a[i].id) && a[i].views > 0;
    BeforeIsStrictOrder(a[i], a[i], a[i], less);
    assert forall k :: 0 <= k < i ==> b[k] != a[i];
    if Listed(b, a[i].id) {
      var j :| 0 <= j < |b| && b[j].id == a[i].id;
      assert b[j] == a[i];
    }
  }

  lemma AgreeUpTo(a: seq<Row>, b: seq<Row>, events: seq<Event>, q: Query, less: Less, i: nat)
    requires StrictTotalOrder(less) && IsTop(a, events, q, less) && IsTop(b, events, q, less)
    requires i <= |a|
    ensures i <= |b| && a[..i] == b[..i]
  {
    if i > 0 {
      AgreeUpTo(a, b, events, q, less, i - 1);
      DisagreementRanksBothWays(a, b, events, q, less, i - 1);
      DisagreementRanksBothWays(b, a, events, q, less, i - 1);
      assert a[..i] == a[..i - 1] + [a[i - 1]];
      assert b[..i] == b[..i - 1] + [b[i - 1]];
    }
  }

  /** Filter, group, order and limit leave no freedom: two answers to a query are equal. */
  lemma TopIsUnique(a: seq<Row>, b: seq<Row>, events: seq<Event>, q: Query, less: Less)
    requires StrictTotalOrder(less) && IsTop(a, events, q, less) && IsTop(b, events, q, less)
    ensures a == b
  {
    AgreeUpTo(a, b, events, q, less, |a|);
    AgreeUpTo(b, a, events, q, less, |b|);
    assert a[..|a|] == a && b[..|b|] == b;
  }

  // ----- counting -----

  lemma {:induction false} CountConcat(a: seq<Event>, b: seq<Event>, q: Query, id: string)
    ensures Count(a + b, q, id) == Count(a, q, id) + Count(b, q, id)
  {
    if b == [] {
      assert a + b == a;
    } else {
      var front := b[..|b| - 1];
      CountConcat(a, front, q, id);
      assert (a + b)[..|a + b| - 1] == a + front;
    }
  }

  lemma CountInserted(a: seq<Event>, e: Event, b: seq<Event>, q: Query, id: string)
    ensures Count(a + [e] + b, q, id) == Count(a + b, q, id) + Views(e, q, id)
  {
    CountConcat(a + [e], b, q, id);
    CountConcat(a, [e], q, id);
    CountConcat(a, b, q, id);
    assert [e][..0] == [];
  }

  lemma CountAppended(events: seq<Event>, e: Event, q: Query, id: string)
    ensures Count(events + [e], q, id) == Count(events, q, id) + Views(e, q, id)
  {
    CountInserted(events, e, [], q, id);
    assert events + [e] + [] == events + [e] && events + [] == events;
  }

  lemma RemovedOne(events: seq<Event>, j: nat)
    requires j < |events|
    ensures multiset(events[..j] + events[j + 1..]) == multiset(events) - multiset{events[j]}
  {
    assert events == events[..j] + [events[j]] + events[j + 1..];
    assert multiset(events) == multiset(events[..j]) + multiset{events[j]} + multiset(events[j + 1..]);
  }

  /** Counts do not depend on the order of the log. */
  lemma {:induction false} CountPermuted(a: seq<Event>, b: seq<Event>, q: Query, id: string)
    requires multiset(a) == multiset(b)
    ensures Count(a, q, id) == Count(b, q, id)
    decreases |a|
  {
    if a == [] {
      assert |multiset(b)| == 0;
    } else {
      var front, e := a[..|a| - 1], a[|a| - 1];
      assert a == front + [e];
      assert e in multiset(b);
      var j :| 0 <= j < |b| && b[j] == e;
      assert b == b[..j] + [e] + b[j + 1..];
      assert multiset(front) == multiset(a) - multiset{e};
      RemovedOne(b, j);
      CountPermuted(front, b[..j] + b[j + 1..], q, id);
      CountInserted(b[..j], e, b[j + 1..], q, id);
    }
  }

  lemma TopIgnoresLogOrder(items: seq<Row>, a: seq<Event>, b: seq<Event>, q: Query, less: Less)
    requires multiset(a) == multiset(b)
    ensures IsTop(items, a, q, less) <==> IsTop(items, b, q, less)
  {
    forall id ensures Count(a, q, id) == Count(b, q, id) {
      CountPermuted(a, b, q, id);
    }
    assert forall id :: RowOf(a, q, id) == RowOf(b, q, id);
  }

  // ----- a ranking, computed -----

  /** The place of a row among ranked rows. */
  function Place(rows: seq<Row>, row: Row, less: Less): (p: nat)
    ensures p <= |rows|
    ensures forall i :: 0 <= i < p ==> Before(rows[i], row, less)
    ensures p < |rows| ==> !Before(rows[p], row, less)
  {
    if rows == [] || !Before(rows[0], row, less) then 0 else 1 + Place(rows[1..], row, less)
  }

  function Insert(rows: seq<Row>, row: Row, less: Less): seq<Row> {
    var p := Place(rows, row, less);
    rows[..p] + [row] + rows[p..]
  }

  lemma InsertKeepsRank(rows: seq<Row>, row: Row, less: Less)
    requires StrictTotalOrder(less) && Ranked(rows, less) && !Listed(rows, row.id)
    ensures Ranked(Insert(rows, row, less), less)
    ensures forall r :: r in Insert(rows, row, less) <==> r in rows || r == row
  {
    hide StrictTotalOrder, Before, Place;
    var p := Place(rows, row, less);
    forall i | p <= i < |rows| ensures Before(row, rows[i], less) {
      assert rows[p].id != row.id;
      BeforeIsStrictOrder(row, rows[p], rows[i], less);
      assert p < i ==> Before(rows[p], rows[i], less);
    }
    assert rows == rows[..p] + rows[p..];
  }

  /** The viewed ids, each once, in order of first view. */
  function ViewedIds(events: seq<Event>, q: Query): seq<string> {
    if events == [] then []
    else
      var ids := ViewedIds(events[..|events| - 1], q);
      var e := events[|events| - 1];
      if IsView(e, q) && e.contentId.value !in ids then ids + [e.contentId.value] else ids
  }

  lemma {:induction false} ViewedIdsAreTheGroups(events: seq<Event>, q: Query)
    ensures forall id :: id in ViewedIds(events, q) <==> Count(events, q, id) > 0
    ensures forall i, j :: 0 <= i < j < |ViewedIds(events, q)| ==> ViewedIds(events, q)[i] != ViewedIds(events, q)[j]
  {
    if events != [] {
      ViewedIdsAreTheGroups(events[..|events| - 1], q);
    }
  }

  function RowsOf(ids: seq<string>, events: seq<Event>, q: Query, less: Less): seq<Row> {
    if ids == [] then []
    else Insert(RowsOf(ids[..|ids| - 1], events, q, less), RowOf(events, q, ids[|ids| - 1]), less)
  }

  lemma {:induction false} RowsOfAreRanked(ids: seq<string>, events: seq<Event>, q: Query, less: Less)
    requires StrictTotalOrder(less)
    requires forall i, j :: 0 <= i < j < |ids| ==> ids[i] != ids[j]
    ensures Ranked(RowsOf(ids, events, q, less), less)
    ensures forall r :: r in RowsOf(ids, events, q, less) <==> r.id in ids && r == RowOf(events, q, r.id)
  {
    if ids != [] {
      var front, id := ids[..|ids| - 1], ids[|ids| - 1];
      RowsOfAreRanked(front, events, q, less);
      assert !Listed(RowsOf(front, events, q, less), id);
      InsertKeepsRank(RowsOf(front, events, q, less), RowOf(events, q, id), less);
    }
  }

  function Ranking(events: seq<Event>, q: Query, less: Less): seq<Row> {
    RowsOf(ViewedIds(events, q), events, q, less)
  }

  /** The rows of the SELECT statement. */
  function Top(events: seq<Event>, q: Query, less: Less): seq<Row> {
    var rows := Ranking(events, q, less);
    if |rows| <= q.limit then rows else rows[..q.limit]
  }

  lemma RankingIsRanking(events: seq<Event>, q: Query, less: Less)
    requires StrictTotalOrder(less)
    ensures IsRanking(Ranking(events, q, less), events, q, less)
  {
    var rows := Ranking(events, q, less);
    ViewedIdsAreTheGroups(events, q);
    RowsOfAreRanked(ViewedIds(events, q), events, q, less);
    forall i | 0 <= i < |rows| ensures rows[i] == RowOf(events, q, rows[i].id) && rows[i].views > 0 {
      assert rows[i] in rows;
    }
    forall id | Count(events, q, id) > 0 ensures Listed(rows, id) {
      assert RowOf(events, q, id) in rows;
    }
  }

  /** A ranking cut at the limit is the answer. */
  lemma CutRankingIsTop(rows: seq<Row>, events: seq<Event>, q: Query, less: Less)
    requires IsRanking(rows, events, q, less)
    ensures IsTop(if |rows| <= q.limit then rows else rows[..q.limit], events, q, less)
  {
    var items := if |rows| <= q.limit then rows else rows[..q.limit];
    forall id | Count(events, q, id) > 0 && !Listed(items, id)
      ensures |items| == q.limit && ComesLast(items, RowOf(events, q, id), less)
    {
      assert forall i :: 0 <= i < |items| ==> items[i] == rows[i];
      var k :| 0 <= k < |rows| && rows[k].id == id;
    }
  }

  /** The statement answers the query. */
  lemma TopIsTop(events: seq<Event>, q: Query, less: Less)
    requires StrictTotalOrder(less)
    ensures IsTop(Top(events, q, less), events, q, less)
  {
    RankingIsRanking(events, q, less);
    CutRankingIsTop(Ranking(events, q, less), events, q, less);
  }

  lemma {:induction false} RowsOfLength(ids: seq<string>, events: seq<Event>, q: Query, less: Less)
    ensures |RowsOf(ids, events, q, less)| == |ids|
  {
    if ids != [] {
      RowsOfLength(ids[..|ids| - 1], events, q, less);
    }
  }

  /** An answer has as many rows as there are viewed ids, up to the limit. */
  lemma TopLength(items: seq<Row>, events: seq<Event>, q: Query, less: Less)
    requires StrictTotalOrder(less) && IsTop(items, events, q, less)
    ensures |items| == if |Groups(events, q)| <= q.limit then |Groups(events, q)| else q.limit
  {
    TopIsTop(events, q, less);
    TopIsUnique(items, Top(events, q, less), events, q, less);
    RowsOfLength(ViewedIds(events, q), events, q, less);
    ViewedIdsSet(events, q);
  }

  ghost function Groups(events: seq<Event>, q: Query): set<string> {
    set e | e in events && IsView(e, q) :: e.contentId.value
  }

  lemma GroupsAppended(events: seq<Event>, e: Event, q: Query)
    ensures Groups(events + [e], q) == Groups(events, q) + if IsView(e, q) then {e.contentId.value} else {}
  {
    assert forall x :: x in events + [e] <==> x in events || x == e;
  }

  lemma {:induction false} ViewedIdsSet(events: seq<Event>, q: Query)
    ensures |ViewedIds(events, q)| == |Groups(events, q)|
    ensures forall id :: id in ViewedIds(events, q) <==> id in Groups(events, q)
  {
    if events != [] {
      hide Groups, IsView;
      var front, e := events[..|events| - 1], events[|events| - 1];
      ViewedIdsSet(front, q);
      assert events == front + [e];
      GroupsAppended(front, e, q);
      var ids, groups := ViewedIds(front, q), Groups(front, q);
      if IsView(e, q) && e.contentId.value !in ids {
        assert ViewedIds(events, q) == ids + [e.contentId.value];
        OneMore(groups, e.contentId.value);
      } else {
        assert ViewedIds(events, q) == ids;
        assert Groups(events, q) == groups;
      }
    }
  }

  lemma OneMore(ids: set<string>, id: string)
    requires id !in ids
    ensures |ids + {id}| == |ids| + 1
  {
  }

  /** The same log in another order gives the same rows. */
  lemma TopPermuted(a: seq<Event>, b: seq<Event>, q: Query, less: Less)
    requires StrictTotalOrder(less) && multiset(a) == multiset(b)
    ensures Top(a, q, less) == Top(b, q, less)
  {
    TopIsTop(a, q, less);
    TopIsTop(b, q, less);
    TopIgnoresLogOrder(Top(b, q, less), a, b, q, less);
    TopIsUnique(Top(a, q, less), Top(b, q, less), a, q, less);
  }

  // ----- the same answer by loops -----

  lemma {:induction false} PlaceFound(rows: seq<Row>, row: Row, less: Less, p: nat)
    requires p <= |rows|
    requires forall i :: 0 <= i < p ==> Before(rows[i], row, less)
    requires p < |rows| ==> !Before(rows[p], row, less)
    ensures Place(rows, row, less) == p
  {
    if p > 0 {
      PlaceFound(rows[1..], row, less, p - 1);
    }
  }

  /** ORDER BY and LIMIT over finished groups, by insertion. */
  method RankAndCut(groups: seq<Row>, ghost events: seq<Event>, q: Query, less: Less) returns (items: seq<Row>)
    requires StrictTotalOrder(less) && Counted(groups, events, q)
    requires forall i, j :: 0 <= i < j < |groups| ==> groups[i].id != groups[j].id
    requires forall id :: Count(events, q, id) > 0 ==> Listed(groups, id)
    ensures items == Top(events, q, less)
  {
    var rows: seq<Row> := [];
    for i := 0 to |groups|
      invariant Ranked(rows, less)
      invariant forall r :: r in rows <==> r in groups[..i]
    {
      var p := 0;
      while p < |rows| && Before(rows[p], groups[i], less)
        invariant p <= |rows|
        invariant forall k :: 0 <= k < p ==> Before(rows[k], groups[i], less)
      {
        p := p + 1;
      }
      PlaceFound(rows, groups[i], less, p);
      forall k | 0 <= k < |rows| ensures rows[k].id != groups[i].id {
        assert rows[k] in groups[..i];
      }
      InsertKeepsRank(rows, groups[i], less);
      rows := rows[..p] + [groups[i]] + rows[p..];
    }
    assert groups[..|groups|] == groups;
    forall id | Count(events, q, id) > 0 ensures Listed(rows, id) {
      var k :| 0 <= k < |groups| && groups[k].id == id;
      assert groups[k] in rows;
    }
    assert Counted(rows, events, q) by {
      assert forall i :: 0 <= i < |rows| ==> rows[i] in groups;
    }
    items := if |rows| <= q.limit then rows else rows[..q.limit];
    CutRankingIsTop(rows, events, q, less);
    TopIsTop(events, q, less);
    TopIsUnique(items, Top(events, q, less), events, q, less);
  }

  /** A scan of the whole log with a map of counts, then ranking. */
  method ScanTop(events: seq<Event>, q: Query, less: Less) returns (items: seq<Row>)
    requires StrictTotalOrder(less)
    ensures items == Top(events, q, less)
  {
    var counts: map<string, nat> := map[];
    for i := 0 to |events|
      invariant forall id :: id in counts <==> Count(events[..i], q, id) > 0
      invariant forall id :: id in counts ==> counts[id] == Count(events[..i], q, id)
    {
      var e := events[i];
      assert events[..i + 1][..i] == events[..i];
      if IsView(e, q) {
        var id := e.contentId.value;
        counts := counts[id := (if id in counts then counts[id] else 0) + 1];
      }
    }
    assert events[..|events|] == events;
    var groups: seq<Row> := [];
    var ids := counts.Keys;
    while ids != {}
      invariant ids <= counts.Keys
      invariant forall i :: 0 <= i < |groups| ==>
                  groups[i].id in counts.Keys - ids && groups[i].views == counts[groups[i].id]
      invariant forall i, j :: 0 <= i < j < |groups| ==> groups[i].id != groups[j].id
      invariant forall id :: id in counts.Keys - ids ==> Listed(groups, id)
    {
      var id :| id in ids;
      ghost var before := groups;
      groups := groups + [Row(id, counts[id])];
      ghost var pending := ids;
      ids := ids - {id};
      forall x | x in counts.Keys - ids ensures Listed(groups, x) {
        if x == id {
          assert groups[|before|].id == x;
        } else {
          assert x in counts.Keys - pending;
          var k :| 0 <= k < |before| && before[k].id == x;
          assert groups[k].id == x;
        }
      }
    }
    items := RankAndCut(groups, events, q, less);
  }

  // ----- the partial index of db/init.sql -----

  /** (portal_key, content_id, occurred_at DESC) */
  predicate IndexBefore(a: Event, b: Event, less: Less)
    requires a.contentId.Some? && b.contentId.Some?
  {
    if a.portalKey != b.portalKey then less(a.portalKey, b.portalKey)
    else if a.contentId != b.contentId then less(a.contentId.value, b.contentId.value)
    else a.occurredAt >= b.occurredAt
  }

  ghost predicate IsIndex(index: seq<Event>, less: Less) {
    && (forall i :: 0 <= i < |index| ==> index[i].contentId.Some?)
    && (forall i, j :: 0 <= i < j < |index| ==> IndexBefore(index[i], index[j], less))
  }

  function IndexPlace(index: seq<Event>, e: Event, less: Less): (p: nat)
    requires e.contentId.Some? && forall i :: 0 <= i < |index| ==> index[i].contentId.Some?
    ensures p <= |index|
    ensures forall i :: 0 <= i < p ==> IndexBefore(index[i], e, less)
    ensures p < |index| ==> !IndexBefore(index[p], e, less)
  {
    if index == [] || !IndexBefore(index[0], e, less) then 0 else 1 + IndexPlace(index[1..], e, less)
  }

  /** Maintenance on INSERT: rows without a content id stay out. */
  function IndexInsert(index: seq<Event>, e: Event, less: Less): seq<Event>
    requires forall i :: 0 <= i < |index| ==> index[i].contentId.Some?
  {
    if e.contentId.None? then index
    else
      var p := IndexPlace(index, e, less);
      index[..p] + [e] + index[p..]
  }

  function IndexOf(events: seq<Event>, less: Less): (index: seq<Event>)
    ensures forall i :: 0 <= i < |index| ==> index[i].contentId.Some?
  {
    if events == [] then [] else IndexInsert(IndexOf(events[..|events| - 1], less), events[|events| - 1], less)
  }

  lemma IndexBeforeIsOrder(a: Event, b: Event, c: Event, less: Less)
    requires StrictTotalOrder(less) && a.contentId.Some? && b.contentId.Some? && c.contentId.Some?
    ensures IndexBefore(a, b, less) || IndexBefore(b, a, less)
    ensures IndexBefore(a, b, less) && IndexBefore(b, c, less) ==> IndexBefore(a, c, less)
  {
  }

  lemma IndexInsertKeepsOrder(index: seq<Event>, e: Event, less: Less)
    requires StrictTotalOrder(less) && IsIndex(index, less) && e.contentId.Some?
    ensures IsIndex(IndexInsert(index, e, less), less)
  {
    hide StrictTotalOrder, IndexBefore;
    var p := IndexPlace(index, e, less);
    forall i | p <= i < |index| ensures IndexBefore(e, index[i], less) {
      IndexBeforeIsOrder(e, index[p], index[i], less);
      assert p < i ==> IndexBefore(index[p], index[i], less);
    }
  }

  lemma {:induction false} IndexIsOrdered(events: seq<Event>, less: Less)
    requires StrictTotalOrder(less)
    ensures IsIndex(IndexOf(events, less), less)
  {
    if events != [] {
      hide StrictTotalOrder, IsIndex;
      var front, e := events[..|events| - 1], events[|events| - 1];
      IndexIsOrdered(front, less);
      if e.contentId.Some? {
        IndexInsertKeepsOrder(IndexOf(front, less), e, less);
      }
    }
  }

  lemma IndexInsertCounts(index: seq<Event>, e: Event, q: Query, id: string, less: Less)
    requires forall i :: 0 <= i < |index| ==> index[i].contentId.Some?
    ensures Count(IndexInsert(index, e, less), q, id) == Count(index, q, id) + Views(e, q, id)
  {
    hide Count, IndexPlace;
    if e.contentId.Some? {
      var p := IndexPlace(index, e, less);
      CountInserted(index[..p], e, index[p..], q, id);
      assert index[..p] + index[p..] == index;
    } else {
      assert Views(e, q, id) == 0;
    }
  }

  /** For every sequence of inserts the index counts as the log does. */
  lemma {:induction false} IndexCountsAsLog(events: seq<Event>, q: Query, id: string, less: Less)
    ensures Count(IndexOf(events, less), q, id) == Count(events, q, id)
  {
    if events != [] {
      IndexCountsAsLog(events[..|events| - 1], q, id, less);
      IndexInsertCounts(IndexOf(events[..|events| - 1], less), events[|events| - 1], q, id, less);
    }
  }

  /** An id behind the open group is new, and keeps the groups in ascending order. */
  lemma OpensNewGroup(groups: seq<Row>, id: string, less: Less)
    requires StrictTotalOrder(less)
    requires forall a, b :: 0 <= a < b < |groups| ==> less(groups[a].id, groups[b].id)
    requires groups != [] ==> less(groups[|groups| - 1].id, id)
    ensures forall a :: 0 <= a < |groups| ==> less(groups[a].id, id) && groups[a].id != id
  {
    forall a | 0 <= a < |groups| ensures less(groups[a].id, id) && groups[a].id != id {
      var last := groups[|groups| - 1].id;
      assert a < |groups| - 1 ==> less(groups[a].id, last);
    }
  }

  lemma AscendingIdsDiffer(groups: seq<Row>, less: Less)
    requires StrictTotalOrder(less)
    requires forall a, b :: 0 <= a < b < |groups| ==> less(groups[a].id, groups[b].id)
    ensures forall a, b :: 0 <= a < b < |groups| ==> groups[a].id != groups[b].id
  {
  }

  /** One pass over an index: equal ids are neighbours, so the last group is the only open one. */
  method CountRuns(index: seq<Event>, q: Query, less: Less) returns (groups: seq<Row>)
    requires StrictTotalOrder(less) && IsIndex(index, less)
    ensures Counted(groups, index, q)
    ensures forall i, j :: 0 <= i < j < |groups| ==> groups[i].id != groups[j].id
    ensures forall id :: Count(index, q, id) > 0 ==> Listed(groups, id)
  {
    hide StrictTotalOrder, Count, Counted, Listed;
    groups := [];
    ghost var last := 0;  // where the open group was last seen
    NoRuns(q, less);
    for i := 0 to |index|
      invariant AreRuns(groups, index[..i], q, less)
      invariant groups != [] ==>
                  last < i && IsView(index[last], q) && index[last].contentId == Some(groups[|groups| - 1].id)
    {
      var e := index[i];
      assert index[..i + 1] == index[..i] + [e];
      if IsView(e, q) {
        var id := e.contentId.value;
        assert groups != [] ==> IndexBefore(index[last], e, less);
        NextRun(groups, index[..i], e, q, less);
        groups := WithView(groups, id);
        last := i;
      } else {
        SameRuns(groups, index[..i], e, q, less);
      }
    }
    assert index[..|index|] == index;
    AscendingIdsDiffer(groups, less);
  }

  /** The groups of a part of the index, ids ascending. */
  ghost predicate AreRuns(groups: seq<Row>, events: seq<Event>, q: Query, less: Less) {
    && Counted(groups, events, q)
    && (forall a, b :: 0 <= a < b < |groups| ==> less(groups[a].id, groups[b].id))
    && (forall id :: Count(events, q, id) > 0 ==> Listed(groups, id))
  }

  lemma NoRuns(q: Query, less: Less)
    ensures AreRuns([], [], q, less)
  {
    forall id ensures Count([], q, id) == 0 {
      CountNothing(q, id);
    }
  }

  lemma SameRuns(groups: seq<Row>, events: seq<Event>, e: Event, q: Query, less: Less)
    requires AreRuns(groups, events, q, less) && !IsView(e, q)
    ensures AreRuns(groups, events + [e], q, less)
  {
    hide Count;
    forall id ensures Count(events + [e], q, id) == Count(events, q, id) {
      CountAppended(events, e, q, id);
    }
  }

  /** The groups after one more view of `id`. */
  function WithView(groups: seq<Row>, id: string): seq<Row> {
    if groups != [] && groups[|groups| - 1].id == id then
      groups[|groups| - 1 := Row(id, groups[|groups| - 1].views + 1)]
    else groups + [Row(id, 1)]
  }

  lemma WithViewAscends(groups: seq<Row>, id: string, less: Less)
    requires StrictTotalOrder(less)
    requires forall a, b :: 0 <= a < b < |groups| ==> less(groups[a].id, groups[b].id)
    requires groups != [] ==> groups[|groups| - 1].id == id || less(groups[|groups| - 1].id, id)
    ensures var after := WithView(groups, id);
            && (forall a, b :: 0 <= a < b < |after| ==> less(after[a].id, after[b].id))
            && (forall a :: 0 <= a < |after| - 1 ==> after[a] == groups[a] && after[a].id != id)
            && after[|after| - 1].id == id
            && (|after| > |groups| ==> !Listed(groups, id))
  {
    AscendingIdsDiffer(groups, less);
    if !(groups != [] && groups[|groups| - 1].id == id) {
      OpensNewGroup(groups, id, less);
    }
  }

  lemma NextRun(groups: seq<Row>, events: seq<Event>, e: Event, q: Query, less: Less)
    requires StrictTotalOrder(less) && AreRuns(groups, events, q, less) && IsView(e, q)
    requires groups != [] ==>
               groups[|groups| - 1].id == e.contentId.value || less(groups[|groups| - 1].id, e.contentId.value)
    ensures AreRuns(WithView(groups, e.contentId.value), events + [e], q, less)
  {
    var id := e.contentId.value;
    assert e.contentId == Some(id);
    hide StrictTotalOrder, Count, IsView;
    var after := WithView(groups, id);
    WithViewAscends(groups, id, less);
    forall x ensures Count(events + [e], q, x) == Count(events, q, x) + if x == id then 1 else 0 {
      CountAppended(events, e, q, x);
    }
    assert after[|after| - 1].views == Count(events, q, id) + 1;
    forall x | Count(events + [e], q, x) > 0 ensures Listed(after, x) {
      if x != id {
        var k :| 0 <= k < |groups| && groups[k].id == x;
        assert after[k].id == x;
      }
    }
  }

  lemma CountNothing(q: Query, id: string)
    ensures Count([], q, id) == 0
  {
  }

  /** Scanning the index instead of the log returns the same rows. */
  method IndexTop(events: seq<Event>, q: Query, less: Less) returns (items: seq<Row>)
    requires StrictTotalOrder(less)
    ensures items == Top(events, q, less)
  {
    IndexIsOrdered(events, less);
    var index := IndexOf(events, less);
    var groups := CountRuns(index, q, less);
    hide Count;
    forall id ensures Count(index, q, id) == Count(events, q, id) {
      IndexCountsAsLog(events, q, id, less);
    }
    assert forall id :: RowOf(index, q, id) == RowOf(events, q, id);
    items := RankAndCut(groups, events, q, less);
  }

  // ----- counting, without the query's own predicates -----

  /** The positions in the log that count as views of a content. */
  ghost function ViewPositions(events: seq<Event>, portal: string, since: Time, id: string): set<int> {
    set i | 0 <= i < |events|
            && events[i].portalKey == portal && events[i].contentId == Some(id)
            && events[i].eventType in {"page_view", "content_view"} && events[i].occurredAt >= since
  }

  /** A count is the number of events of that portal and content, of the two kinds of view, that
      did not occur before the window. */
  lemma {:induction false} CountIsCardinality(events: seq<Event>, q: Query, id: string)
    ensures Count(events, q, id) == |ViewPositions(events, q.portal, q.since, id)|
  {
    if events != [] {
      var front, n := events[..|events| - 1], |events| - 1;
      CountIsCardinality(front, q, id);
      var was := ViewPositions(front, q.portal, q.since, id);
      PositionsOfOneMore(events, q, id);
      hide ViewPositions, IsView;
    }
  }

  lemma PositionsOfOneMore(events: seq<Event>, q: Query, id: string)
    requires events != []
    ensures var n := |events| - 1;
            var was := ViewPositions(events[..n], q.portal, q.since, id);
            && n !in was
            && ViewPositions(events, q.portal, q.since, id) == if Views(events[n], q, id) == 1 then was + {n} else was
  {
  }
}
