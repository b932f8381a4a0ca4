/** Rows of a table, and the meaning of WHERE, UPDATE and DELETE on them. */
module Tables {

  /** SELECT ... WHERE */
  function Select<T(!new)>(rows: seq<T>, where: T -> bool): (r: seq<T>)
    ensures forall x :: x in r <==> x in rows && where(x)
    ensures |r| <= |rows|
  {
    if rows == [] then []
    else (if where(rows[0]) then [rows[0]] else []) + Select(rows[1..], where)
  }

  /** DELETE ... WHERE leaves the other rows. */
  function Delete<T(!new)>(rows: seq<T>, where: T -> bool): (r: seq<T>)
    ensures forall x :: x in r <==> x in rows && !where(x)
    ensures |r| <= |rows|
  {
    if rows == [] then []
    else (if where(rows[0]) then [] else [rows[0]]) + Delete(rows[1..], where)
  }

  /** UPDATE ... SET ... WHERE */
  function Update<T>(rows: seq<T>, where: T -> bool, set_: T -> T): (r: seq<T>)
    ensures |r| == |rows|
    ensures forall i :: 0 <= i < |rows| ==> r[i] == if where(rows[i]) then set_(rows[i]) else rows[i]
  {
    seq(|rows|, i requires 0 <= i < |rows| => if where(rows[i]) then set_(rows[i]) else rows[i])
  }

  predicate Has<T(==,!new)>(rows: seq<T>, where: T -> bool) {
    exists x | x in rows :: where(x)
  }

  lemma {:induction false} SelectNothing<T(!new)>(rows: seq<T>, where: T -> bool)
    requires forall i :: 0 <= i < |rows| ==> !where(rows[i])
    ensures Select(rows, where) == []
  {
    if rows != [] {
      SelectNothing(rows[1..], where);
    }
  }

  /** A condition that no two rows satisfy selects at most one row, whichever it is. */
  lemma {:induction false} SelectUnique<T(!new)>(rows: seq<T>, where: T -> bool)
    requires forall i, j :: 0 <= i < j < |rows| ==> !(where(rows[i]) && where(rows[j]))
    ensures |Select(rows, where)| <= 1
    ensures forall i :: 0 <= i < |rows| && where(rows[i]) ==> Select(rows, where) == [rows[i]]
  {
    if rows != [] {
      SelectUnique(rows[1..], where);
      if where(rows[0]) {
        SelectNothing(rows[1..], where);
      } else {
        assert forall i :: 0 < i < |rows| ==> rows[i] == rows[1..][i - 1];
      }
    }
  }

  /** Deleting keeps any property of pairs of rows in table order. */
  lemma {:induction false} DeleteKeepsPairs<T(!new)>(rows: seq<T>, where: T -> bool, ok: (T, T) -> bool)
    requires forall i, j :: 0 <= i < j < |rows| ==> ok(rows[i], rows[j])
    ensures forall i, j :: 0 <= i < j < |Delete(rows, where)| ==> ok(Delete(rows, where)[i], Delete(rows, where)[j])
  {
    if rows != [] {
      var rest := Delete(rows[1..], where);
      DeleteKeepsPairs(rows[1..], where, ok);
      forall j | 0 <= j < |rest| ensures ok(rows[0], rest[j]) {
        assert rest[j] in rows[1..];
      }
    }
  }

  lemma {:induction false} SelectKeepsPairs<T(!new)>(rows: seq<T>, where: T -> bool, ok: (T, T) -> bool)
    requires forall i, j :: 0 <= i < j < |rows| ==> ok(rows[i], rows[j])
    ensures forall i, j :: 0 <= i < j < |Select(rows, where)| ==> ok(Select(rows, where)[i], Select(rows, where)[j])
  {
    if rows != [] {
      var rest := Select(rows[1..], where);
      SelectKeepsPairs(rows[1..], where, ok);
      forall j | 0 <= j < |rest| ensures ok(rows[0], rest[j]) {
        assert rest[j] in rows[1..];
      }
    }
  }

  lemma {:induction false} DeleteNothing<T(!new)>(rows: seq<T>, where: T -> bool)
    requires forall x :: x in rows ==> !where(x)
    ensures Delete(rows, where) == rows
  {
    if rows != [] {
      DeleteNothing(rows[1..], where);
    }
  }

  lemma {:induction false} DeleteAppend<T(!new)>(rows: seq<T>, row: T, where: T -> bool)
    ensures Delete(rows + [row], where) == Delete(rows, where) + if where(row) then [] else [row]
  {
    hide Delete;
    DeletePrepend(row, [], where);
    if rows == [] {
      assert rows + [row] == [row] + [];
    } else {
      DeleteAppend(rows[1..], row, where);
      DeletePrepend(rows[0], rows[1..] + [row], where);
      DeletePrepend(rows[0], rows[1..], where);
      assert rows == [rows[0]] + rows[1..];
      assert rows + [row] == [rows[0]] + (rows[1..] + [row]);
    }
  }

  lemma DeletePrepend<T(!new)>(row: T, rows: seq<T>, where: T -> bool)
    ensures Delete([row] + rows, where) == (if where(row) then [] else [row]) + Delete(rows, where)
  {
    assert ([row] + rows)[1..] == rows;
  }

  lemma {:induction false} DeletesCommute<T(!new)>(rows: seq<T>, p: T -> bool, q: T -> bool)
    ensures Delete(Delete(rows, p), q) == Delete(Delete(rows, q), p)
  {
    if rows != [] {
      DeletesCommute(rows[1..], p, q);
      DeletePrepend(rows[0], Delete(rows[1..], p), q);
      DeletePrepend(rows[0], Delete(rows[1..], q), p);
      assert Delete(rows, p) == if p(rows[0]) then Delete(rows[1..], p) else [rows[0]] + Delete(rows[1..], p);
      assert Delete(rows, q) == if q(rows[0]) then Delete(rows[1..], q) else [rows[0]] + Delete(rows[1..], q);
    }
  }
}
