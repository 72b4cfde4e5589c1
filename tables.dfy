/**
 A database table as a map from row id to record, and its listing: the rows
 in ascending id order, which is how `query.all()` is modelled.
 */
module Tables {

  /** Every id in the table is a positive id below `bound` (the next fresh id). */
  ghost predicate IdsBelow<R>(m: map<nat, R>, bound: nat)
  {
    forall k :: k in m ==> 1 <= k < bound
  }

  /** The ids of a listing, strictly increasing. */
  ghost predicate Increasing<R>(rows: seq<(nat, R)>)
  {
    forall i, j :: 0 <= i < j < |rows| ==> rows[i].0 < rows[j].0
  }

  /** The set of ids a listing mentions. */
  ghost function Ids<R>(rows: seq<(nat, R)>): set<nat>
  {
    if rows == [] then {} else {rows[0].0} + Ids(rows[1..])
  }

  /** `rows` lists table `m`: one entry per stored row, each with that row's record, by ascending id. */
  ghost predicate Lists<R>(rows: seq<(nat, R)>, m: map<nat, R>)
  {
    && Increasing(rows)
    && Ids(rows) == m.Keys
    && forall i :: 0 <= i < |rows| ==> rows[i].0 in m && rows[i].1 == m[rows[i].0]
  }

  /** The rows of `m` whose ids lie in [lo, hi), in ascending id order. */
  function Rows<R>(m: map<nat, R>, lo: nat, hi: nat): (rows: seq<(nat, R)>)
    ensures forall i :: 0 <= i < |rows| ==> lo <= rows[i].0 < hi && rows[i].0 in m && rows[i].1 == m[rows[i].0]
    decreases hi - lo
  {
    if lo >= hi then []
    else if lo in m then [(lo, m[lo])] + Rows(m, lo + 1, hi)
    else Rows(m, lo + 1, hi)
  }

  /** A listing is in strictly increasing id order and mentions exactly the stored ids of its range. */
  lemma {:induction false} RowsOrdered<R>(m: map<nat, R>, lo: nat, hi: nat)
    ensures Increasing(Rows(m, lo, hi))
    ensures Ids(Rows(m, lo, hi)) == set k | k in m && lo <= k < hi
    decreases hi - lo
  {
    if lo < hi {
      RowsOrdered(m, lo + 1, hi);
      var rest := Rows(m, lo + 1, hi);
      if lo in m {
        var rows := [(lo, m[lo])] + rest;
        assert rows[1..] == rest;
        forall i, j | 0 <= i < j < |rows| ensures rows[i].0 < rows[j].0 {
          if i > 0 {
            assert rows[i] == rest[i - 1] && rows[j] == rest[j - 1];
          } else {
            assert rows[j] == rest[j - 1];
          }
        }
      }
    }
  }

  lemma {:induction false} IdsMember<R>(rows: seq<(nat, R)>, k: nat)
    ensures k in Ids(rows) <==> exists i :: 0 <= i < |rows| && rows[i].0 == k
  {
    if rows != [] {
      IdsMember(rows[1..], k);
      if k in Ids(rows[1..]) {
        var i :| 0 <= i < |rows[1..]| && rows[1..][i].0 == k;
        assert rows[i + 1].0 == k;
      }
      if exists i :: 0 <= i < |rows| && rows[i].0 == k {
        var i :| 0 <= i < |rows| && rows[i].0 == k;
        if i > 0 {
          assert rows[1..][i - 1].0 == k;
        }
      }
    }
  }

  /** In a strictly increasing listing no id repeats, so there are as many ids as entries. */
  lemma {:induction false} IncreasingIdsCount<R>(rows: seq<(nat, R)>)
    requires Increasing(rows)
    ensures |Ids(rows)| == |rows|
  {
    if rows != [] {
      var rest := rows[1..];
      assert Increasing(rest) by {
        forall i, j | 0 <= i < j < |rest| ensures rest[i].0 < rest[j].0 {
          assert rest[i] == rows[i + 1] && rest[j] == rows[j + 1];
        }
      }
      IncreasingIdsCount(rest);
      forall i | 0 <= i < |rest| ensures rest[i].0 != rows[0].0 {
        assert rest[i] == rows[i + 1];
      }
      IdsMember(rest, rows[0].0);
    }
  }

  /** A listing that lists a table has exactly one entry per stored row. */
  lemma ListsCount<R>(rows: seq<(nat, R)>, m: map<nat, R>)
    requires Lists(rows, m)
    ensures |rows| == |m|
  {
    IncreasingIdsCount(rows);
    assert |m.Keys| == |m|;
  }

  /** When every id lies below `bound`, the listing from 1 to `bound` lists the whole table. */
  lemma RowsListAll<R>(m: map<nat, R>, bound: nat)
    requires IdsBelow(m, bound)
    ensures Lists(Rows(m, 1, bound), m)
  {
    RowsOrdered(m, 1, bound);
    assert (set k | k in m && 1 <= k < bound) == m.Keys;
  }

  /** The listing only depends on the rows inside its id range. */
  lemma {:induction false} RowsAgree<R>(m: map<nat, R>, m': map<nat, R>, lo: nat, hi: nat)
    requires forall k :: lo <= k < hi ==> (k in m <==> k in m')
    requires forall k :: lo <= k < hi && k in m ==> m[k] == m'[k]
    ensures Rows(m, lo, hi) == Rows(m', lo, hi)
    decreases hi - lo
  {
    if lo < hi {
      RowsAgree(m, m', lo + 1, hi);
    }
  }

  /** A listing splits at any id between its bounds. */
  lemma {:induction false} RowsSplit<R>(m: map<nat, R>, lo: nat, mid: nat, hi: nat)
    requires lo <= mid <= hi
    ensures Rows(m, lo, hi) == Rows(m, lo, mid) + Rows(m, mid, hi)
    decreases mid - lo
  {
    if lo < mid {
      RowsSplit(m, lo + 1, mid, hi);
    }
  }

  /** Inserting a row under the next fresh id appends exactly that row to the listing. */
  lemma {:induction false} RowsSnoc<R>(m: map<nat, R>, lo: nat, hi: nat, v: R)
    requires lo <= hi
    ensures Rows(m[hi := v], lo, hi + 1) == Rows(m, lo, hi) + [(hi, v)]
    decreases hi - lo
  {
    if lo < hi {
      RowsSnoc(m, lo + 1, hi, v);
    }
  }

  /**
   Removing a stored row removes exactly its entry from the listing; the
   entries before and after it stay, in order.
   */
  lemma RowsRemove<R>(m: map<nat, R>, k: nat, lo: nat, hi: nat)
    requires lo <= k < hi && k in m
    ensures Rows(m, lo, hi) == Rows(m - {k}, lo, k) + [(k, m[k])] + Rows(m - {k}, k + 1, hi)
    ensures Rows(m - {k}, lo, hi) == Rows(m - {k}, lo, k) + Rows(m - {k}, k + 1, hi)
  {
    var m' := m - {k};
    assert forall j :: j != k ==> (j in m <==> j in m') && (j in m ==> m[j] == m'[j]);
    RowsAgree(m, m', lo, k);
    RowsAgree(m, m', k + 1, hi);
    RowsSplitAt(m, k, lo, hi);
    RowsSplitAt(m', k, lo, hi);
    assert k !in m';
  }

  /** The listing around one id: the part before it, its own entry (if stored), the part after it. */
  lemma RowsSplitAt<R>(m: map<nat, R>, k: nat, lo: nat, hi: nat)
    requires lo <= k < hi
    ensures Rows(m, lo, hi) == Rows(m, lo, k) + (if k in m then [(k, m[k])] else []) + Rows(m, k + 1, hi)
  {
    RowsSplit(m, lo, k, hi);
    RowsSplit(m, k, k + 1, hi);
    assert Rows(m, k, k + 1) == (if k in m then [(k, m[k])] else []) + Rows(m, k + 1, k + 1);
  }
}
