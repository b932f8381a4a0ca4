/** How answers change with the limit, the window and the log. */
module TopContentEvolution {
  import opened Options
  import opened Schema
  import opened TopContent

  lemma PrefixOfTopIsTop(wide: seq<Row>, events: seq<Event>, q: Query, smaller: nat, less: Less)
    requires IsTop(wide, events, q, less) && smaller <= |wide|
    ensures IsTop(wide[..smaller], events, q.(limit := smaller), less)
  {
    var r := q.(limit := smaller);
    var narrow := wide[..smaller];
    forall id ensures RowOf(events, r, id) == RowOf(events, q, id) {
      CountIgnoresLimit(events, q, r, id);
    }
    forall id | Count(events, r, id) > 0 && !Listed(narrow, id)
      ensures ComesLast(narrow, RowOf(events, r, id), less)
    {
      assert RowOf(events, r, id) == RowOf(events, q, id);
      assert forall i :: 0 <= i < |narrow| ==> narrow[i] == wide[i] && narrow[i].id != id;
      if Listed(wide, id) {
        var k :| 0 <= k < |wide| && wide[k].id == id;
        assert wide[k] == RowOf(events, q, id);
      }
    }
  }

  /** A smaller limit gives a prefix. */
  lemma LimitGivesPrefix(events: seq<Event>, q: Query, smaller: nat, less: Less)
    requires StrictTotalOrder(less) && smaller <= q.limit
    ensures Top(events, q.(limit := smaller), less) <= Top(events, q, less)
  {
    var wide, narrow := Top(events, q, less), Top(events, q.(limit := smaller), less);
    TopIsTop(events, q, less);
    TopIsTop(events, q.(limit := smaller), less);
    if smaller <= |wide| {
      PrefixOfTopIsTop(wide, events, q, smaller, less);
      TopIsUnique(narrow, wide[..smaller], events, q.(limit := smaller), less);
    } else {
      forall id ensures RowOf(events, q.(limit := smaller), id) == RowOf(events, q, id) {
        CountIgnoresLimit(events, q, q.(limit := smaller), id);
      }
      assert forall id :: Count(events, q, id) == RowOf(events, q, id).views;
      assert forall id :: Count(events, q.(limit := smaller), id) == RowOf(events, q.(limit := smaller), id).views;
      assert IsTop(wide, events, q.(limit := smaller), less);
      TopIsUnique(narrow, wide, events, q.(limit := smaller), less);
    }
  }

  lemma {:induction false} CountIgnoresLimit(events: seq<Event>, q: Query, r: Query, id: string)
    requires q.portal == r.portal && q.since == r.since
    ensures Count(events, q, id) == Count(events, r, id)
  {
    if events != [] {
      CountIgnoresLimit(events[..|events| - 1], q, r, id);
    }
  }

  /** A wider window never lowers a count. */
  lemma {:induction false} WideningNeverLowersCounts(events: seq<Event>, q: Query, earlier: Time, id: string)
    requires earlier <= q.since
    ensures Count(events, q, id) <= Count(events, q.(since := earlier), id)
  {
    if events != [] {
      WideningNeverLowersCounts(events[..|events| - 1], q, earlier, id);
    }
  }

  /** The ids that rank before `id`. */
  ghost function Ahead(events: seq<Event>, q: Query, less: Less, id: string): set<string> {
    set x | x in Groups(events, q) && Before(RowOf(events, q, x), RowOf(events, q, id), less)
  }

  lemma GroupsAreCounted(events: seq<Event>, q: Query, id: string)
    ensures id in Groups(events, q) <==> Count(events, q, id) > 0
  {
    ViewedIdsSet(events, q);
    ViewedIdsAreTheGroups(events, q);
  }

  /** In an answer, position i means that exactly i ids rank before. */
  lemma PositionCountsAhead(items: seq<Row>, events: seq<Event>, q: Query, less: Less, i: nat)
    requires StrictTotalOrder(less) && IsTop(items, events, q, less) && i < |items|
    ensures |Ahead(events, q, less, items[i].id)| == i
  {
    var before := set k | 0 <= k < i :: items[k].id;
    forall x ensures x in before <==> x in Ahead(events, q, less, items[i].id) {
      GroupsAreCounted(events, q, x);
      if x in before {
        var k :| 0 <= k < i && items[k].id == x;
        assert items[k] == RowOf(events, q, x) && Before(items[k], items[i], less);
      }
      if x in Ahead(events, q, less, items[i].id) {
        AheadIsListed(items, events, q, less, i, x);
      }
    }
    assert before == Ahead(events, q, less, items[i].id);
    RankedIdsAreDistinct(items, events, q, less);
    PrefixIds(items, i);
  }

  lemma AheadIsListed(items: seq<Row>, events: seq<Event>, q: Query, less: Less, i: nat, x: string)
    requires StrictTotalOrder(less) && IsTop(items, events, q, less) && i < |items|
    requires Count(events, q, x) > 0 && Before(RowOf(events, q, x), items[i], less)
    ensures exists k :: 0 <= k < i && items[k].id == x
  {
    var row := RowOf(events, q, x);
    BeforeIsStrictOrder(row, items[i], row, less);
    BeforeIsStrictOrder(items[i], items[i], items[i], less);
    assert Listed(items, x);
    var k :| 0 <= k < |items| && items[k].id == x;
    assert items[k] == row;
    assert forall m :: i < m < |items| ==> Before(items[i], items[m], less);
  }

  lemma RankedIdsAreDistinct(items: seq<Row>, events: seq<Event>, q: Query, less: Less)
    requires StrictTotalOrder(less) && Ranked(items, less) && Counted(items, events, q)
    ensures forall i, j :: 0 <= i < j < |items| ==> items[i].id != items[j].id
  {
    forall i, j | 0 <= i < j < |items| ensures items[i].id != items[j].id {
      BeforeIsStrictOrder(items[i], items[j], items[i], less);
      assert items[i] == RowOf(events, q, items[i].id) && items[j] == RowOf(events, q, items[j].id);
    }
  }

  lemma {:induction false} PrefixIds(items: seq<Row>, i: nat)
    requires i <= |items| && forall a, b :: 0 <= a < b < |items| ==> items[a].id != items[b].id
    ensures |set k | 0 <= k < i :: items[k].id| == i
  {
    var ids := set k | 0 <= k < i :: items[k].id;
    if i == 0 {
      assert ids == {};
    } else {
      PrefixIds(items, i - 1);
      var front := set k | 0 <= k < i - 1 :: items[k].id;
      assert ids == front + {items[i - 1].id};
    }
  }

  /** One more matching view: exactly one count rises, by one, and the order of the others stays. */
  lemma ViewRaisesOneCount(events: seq<Event>, e: Event, q: Query, less: Less, a: string, b: string)
    requires IsView(e, q)
    ensures Count(events + [e], q, a) == Count(events, q, a) + if e.contentId == Some(a) then 1 else 0
    ensures e.contentId != Some(a) && e.contentId != Some(b) ==>
              (Before(RowOf(events + [e], q, a), RowOf(events + [e], q, b), less)
               <==> Before(RowOf(events, q, a), RowOf(events, q, b), less))
  {
    CountAppended(events, e, q, a);
    CountAppended(events, e, q, b);
  }

  /** Whoever is ahead of the viewed content after the view was ahead before it. */
  lemma AheadShrinks(events: seq<Event>, e: Event, q: Query, less: Less, x: string)
    requires StrictTotalOrder(less) && IsView(e, q) && x in Ahead(events + [e], q, less, e.contentId.value)
    ensures x in Ahead(events, q, less, e.contentId.value)
  {
    var id := e.contentId.value;
    CountAppended(events, e, q, id);
    CountAppended(events, e, q, x);
    GroupsAreCounted(events, q, x);
    GroupsAreCounted(events + [e], q, x);
    hide Count, Groups;
    assert x == id ==> !Before(RowOf(events + [e], q, x), RowOf(events + [e], q, id), less);
  }

  /** The viewed content keeps its place in the answer or moves towards the front. */
  lemma ViewNeverWorsensRank(events: seq<Event>, e: Event, q: Query, less: Less, i: nat)
    requires StrictTotalOrder(less) && IsView(e, q)
    requires i < |Top(events, q, less)| && e.contentId == Some(Top(events, q, less)[i].id)
    ensures var top := Top(events + [e], q, less);
            exists j :: 0 <= j <= i && j < |top| && top[j].id == e.contentId.value
  {
    hide StrictTotalOrder, Top, Count, Before, IsView;
    var id := e.contentId.value;
    var items, later := Top(events, q, less), Top(events + [e], q, less);
    TopIsTop(events, q, less);
    TopIsTop(events + [e], q, less);
    PositionCountsAhead(items, events, q, less, i);
    CountAppended(events, e, q, id);
    forall x | x in Ahead(events + [e], q, less, id) ensures x in Ahead(events, q, less, id) {
      AheadShrinks(events, e, q, less, x);
    }
    SmallerSet(Ahead(events + [e], q, less, id), Ahead(events, q, less, id));
    if !Listed(later, id) {
      var firsts := set k | 0 <= k < |later| :: later[k].id;
      RankedIdsAreDistinct(later, events + [e], q, less);
      PrefixIds(later, |later|);
      forall x | x in firsts ensures x in Ahead(events + [e], q, less, id) {
        var k :| 0 <= k < |later| && later[k].id == x;
        GroupsAreCounted(events + [e], q, x);
        assert later[k] == RowOf(events + [e], q, x);
      }
      SmallerSet(firsts, Ahead(events + [e], q, less, id));
      assert false;
    }
    var j :| 0 <= j < |later| && later[j].id == id;
    PositionCountsAhead(later, events + [e], q, less, j);
  }

  lemma {:induction false} SmallerSet(a: set<string>, b: set<string>)
    requires a <= b
    ensures |a| <= |b|
  {
    if a != {} {
      var x :| x in a;
      SmallerSet(a - {x}, b - {x});
    }
  }
}
