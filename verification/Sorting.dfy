/** ORDER BY over the keys of a favourites list. */
module Sorting {
  import opened Schema

  type Less = (string, string) -> bool

  predicate StrictlySorted(keys: seq<string>, less: Less) {
    forall i, j :: 0 <= i < j < |keys| ==> less(keys[i], keys[j])
  }

  function Insert(keys: seq<string>, key: string, less: Less): seq<string> {
    if keys == [] || !less(keys[0], key) then [key] + keys else [keys[0]] + Insert(keys[1..], key, less)
  }

  function Sorted(keys: seq<string>, less: Less): seq<string> {
    if keys == [] then [] else Insert(Sorted(keys[1..], less), keys[0], less)
  }

  lemma {:induction false} InsertKeepsOrder(keys: seq<string>, key: string, less: Less)
    requires StrictTotalOrder(less) && StrictlySorted(keys, less) && key !in keys
    ensures StrictlySorted(Insert(keys, key, less), less)
    ensures forall k :: k in Insert(keys, key, less) <==> k in keys || k == key
  {
    if keys != [] && less(keys[0], key) {
      InsertKeepsOrder(keys[1..], key, less);
      var rest := Insert(keys[1..], key, less);
      forall j | 0 <= j < |rest| ensures less(keys[0], rest[j]) {
        assert rest[j] in rest;
      }
    }
  }

  /** Distinct keys come out strictly ascending, none lost and none added. */
  lemma {:induction false} SortedIsSorted(keys: seq<string>, less: Less)
    requires StrictTotalOrder(less)
    requires forall i, j :: 0 <= i < j < |keys| ==> keys[i] != keys[j]
    ensures StrictlySorted(Sorted(keys, less), less)
    ensures forall k :: k in Sorted(keys, less) <==> k in keys
  {
    if keys != [] {
      SortedIsSorted(keys[1..], less);
      InsertKeepsOrder(Sorted(keys[1..], less), keys[0], less);
    }
  }

  /** A set of keys has one strictly ascending listing. */
  lemma {:induction false} SortedIsUnique(a: seq<string>, b: seq<string>, less: Less)
    requires StrictTotalOrder(less) && StrictlySorted(a, less) && StrictlySorted(b, less)
    requires forall k :: k in a <==> k in b
    ensures a == b
  {
    assert forall i :: 0 <= i < |a| ==> a[i] in b;
    assert forall i :: 0 <= i < |b| ==> b[i] in a;
    if a != [] && b != [] {
      var i :| 0 <= i < |b| && b[i] == a[0];
      var j :| 0 <= j < |a| && a[j] == b[0];
      assert a[0] == b[0];
      forall k ensures k in a[1..] <==> k in b[1..] {
        assert k in a[1..] ==> k in a && less(a[0], k);
        assert k in b[1..] ==> k in b && less(b[0], k);
      }
      SortedIsUnique(a[1..], b[1..], less);
    }
  }
}
