/** Queries over tables of records, with the meaning of the Django queryset calls the core makes. */
module Tables {
  import opened Wrappers

  /** The rows that satisfy `p`, in table order (`.filter(...)`). */
  function Filter<T>(rows: seq<T>, p: T -> bool): (r: seq<T>)
    ensures |r| <= |rows|
    ensures forall i :: 0 <= i < |r| ==> r[i] in rows && p(r[i])
    ensures forall i :: 0 <= i < |rows| && p(rows[i]) ==> rows[i] in r
  {
    if rows == [] then []
    else Filter(rows[..|rows| - 1], p) + (if p(rows[|rows| - 1]) then [rows[|rows| - 1]] else [])
  }

  /** The number of rows that satisfy `p` (`.filter(...).count()`). */
  function Count<T>(rows: seq<T>, p: T -> bool): nat
  {
    |Filter(rows, p)|
  }

  lemma CountZero<T>(rows: seq<T>, p: T -> bool)
    ensures Count(rows, p) == 0 <==> forall i :: 0 <= i < |rows| ==> !p(rows[i])
  {
    if Count(rows, p) != 0 {
      var x := Filter(rows, p)[0];
      assert x in rows && p(x);
    }
  }

  /** The outcome of Django's `.get(...)`: no row, the one row, or more than one. */
  datatype Lookup<T> = DoesNotExist | Found(row: T) | MultipleObjectsReturned

  function Get<T>(rows: seq<T>, p: T -> bool): (r: Lookup<T>)
    ensures r.DoesNotExist? <==> Count(rows, p) == 0
    ensures r.Found? <==> Count(rows, p) == 1
    ensures r.Found? ==> r.row in rows && p(r.row)
  {
    var m := Filter(rows, p);
    if |m| == 0 then DoesNotExist
    else if |m| == 1 then (assert m[0] in m; Found(m[0]))
    else MultipleObjectsReturned
  }

  /** The index of the row that `.filter(p).order_by('-key').first()` returns: a row satisfying `p`
      with the greatest key, the earliest in table order among equal keys. */
  function Latest<T>(rows: seq<T>, p: T -> bool, key: T -> int): (r: Option<nat>)
    ensures r.None? <==> forall i :: 0 <= i < |rows| ==> !p(rows[i])
    ensures r.Some? ==> r.value < |rows| && p(rows[r.value])
    ensures r.Some? ==> forall i :: 0 <= i < |rows| && p(rows[i]) ==> key(rows[i]) <= key(rows[r.value])
    ensures r.Some? ==> forall i :: 0 <= i < r.value && p(rows[i]) ==> key(rows[i]) < key(rows[r.value])
  {
    if rows == [] then None
    else
      var n := |rows| - 1;
      var prev := Latest(rows[..n], p, key);
      assert forall i :: 0 <= i < n ==> rows[..n][i] == rows[i];
      if p(rows[n]) && (prev.None? || key(rows[n]) > key(rows[prev.value])) then Some(n) else prev
  }

  /** When exactly one row satisfies `p`, the count is one. */
  lemma {:induction false} CountSingle<T>(rows: seq<T>, p: T -> bool, j: nat)
    requires j < |rows| && p(rows[j])
    requires forall i :: 0 <= i < |rows| && i != j ==> !p(rows[i])
    ensures Count(rows, p) == 1
    decreases |rows|
  {
    var n := |rows| - 1;
    if j < n {
      CountSingle(rows[..n], p, j);
    } else {
      CountZero(rows[..n], p);
    }
  }

  /** Filtering an extended table extends the filtered table. */
  lemma FilterAppend<T>(rows: seq<T>, x: T, p: T -> bool)
    ensures Filter(rows + [x], p) == Filter(rows, p) + (if p(x) then [x] else [])
  {
    assert (rows + [x])[..|rows|] == rows;
  }

  /** Two tables whose rows agree on `p` position by position have the same count. */
  lemma {:induction false} CountPointwise<T>(a: seq<T>, b: seq<T>, p: T -> bool)
    requires |a| == |b|
    requires forall i :: 0 <= i < |a| ==> p(a[i]) == p(b[i])
    ensures Count(a, p) == Count(b, p)
    decreases |a|
  {
    if a != [] {
      var n := |a| - 1;
      CountPointwise(a[..n], b[..n], p);
    }
  }

  /** Deleting rows outside `q` does not change the count of rows satisfying `p` when `p` implies `q`. */
  lemma {:induction false} CountAfterFilter<T>(rows: seq<T>, p: T -> bool, q: T -> bool)
    requires forall i :: 0 <= i < |rows| && p(rows[i]) ==> q(rows[i])
    ensures Count(Filter(rows, q), p) == Count(rows, p)
    decreases |rows|
  {
    if rows != [] {
      var n := |rows| - 1;
      var init, last := rows[..n], rows[n];
      assert forall i :: 0 <= i < n ==> init[i] == rows[i];
      CountAfterFilter(init, p, q);
      assert Filter(rows, q) == Filter(init, q) + (if q(last) then [last] else []);
      assert Count(rows, p) == Count(init, p) + (if p(last) then 1 else 0);
      if q(last) {
        FilterAppend(Filter(init, q), last, p);
        assert Count(Filter(rows, q), p) == Count(Filter(init, q), p) + (if p(last) then 1 else 0);
      } else {
        assert !p(rows[n]);
        assert Filter(rows, q) == Filter(init, q);
      }
    }
  }

  /** A filter that every row passes keeps the table as it is. */
  lemma {:induction false} FilterKeepsAll<T>(rows: seq<T>, p: T -> bool)
    requires forall i :: 0 <= i < |rows| ==> p(rows[i])
    ensures Filter(rows, p) == rows
    decreases |rows|
  {
    if rows != [] {
      var n := |rows| - 1;
      FilterKeepsAll(rows[..n], p);
      assert rows[..n] + [rows[n]] == rows;
    }
  }
}
