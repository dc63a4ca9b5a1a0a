/** Weighted totals over the rows of a table, the model of SQL sums and counts, and the first row that fits. */
module Sums {

  function Total<T>(rows: seq<T>, weight: T -> int): int {
    if rows == [] then 0 else Total(rows[..|rows| - 1], weight) + weight(rows[|rows| - 1])
  }

  lemma TotalAppend<T>(rows: seq<T>, row: T, weight: T -> int)
    ensures Total(rows + [row], weight) == Total(rows, weight) + weight(row)
  {
  }

  lemma {:induction false} TotalConcat<T>(a: seq<T>, b: seq<T>, weight: T -> int)
    ensures Total(a + b, weight) == Total(a, weight) + Total(b, weight)
  {
    if b == [] {
      assert a + b == a;
    } else {
      var init, last := b[..|b| - 1], b[|b| - 1];
      TotalConcat(a, init, weight);
      assert a + b == (a + init) + [last];
      TotalAppend(a + init, last, weight);
    }
  }

  /** Rewriting one row changes the total by the difference of its weights. */
  lemma {:induction false} TotalUpdate<T>(rows: seq<T>, i: nat, row: T, weight: T -> int)
    requires i < |rows|
    ensures Total(rows[i := row], weight) == Total(rows, weight) - weight(rows[i]) + weight(row)
  {
    var n := |rows| - 1;
    if i < n {
      TotalUpdate(rows[..n], i, row, weight);
      assert rows[i := row][..n] == rows[..n][i := row];
    } else {
      assert rows[i := row][..n] == rows[..n];
    }
  }

  /** A total of a sum of weights is the sum of the totals. */
  lemma {:induction false} TotalSplit<T>(rows: seq<T>, whole: T -> int, part: T -> int, rest: T -> int)
    requires forall row <- rows :: whole(row) == part(row) + rest(row)
    ensures Total(rows, whole) == Total(rows, part) + Total(rows, rest)
  {
    if rows != [] {
      TotalSplit(rows[..|rows| - 1], whole, part, rest);
    }
  }

  lemma {:induction false} TotalZero<T>(rows: seq<T>, weight: T -> int)
    requires forall row <- rows :: weight(row) == 0
    ensures Total(rows, weight) == 0
  {
    if rows != [] {
      TotalZero(rows[..|rows| - 1], weight);
    }
  }

  /** A total of ones and zeros counts the ones. */
  lemma {:induction false} TotalCounts<T>(rows: seq<T>, weight: T -> int, ones: set<nat>)
    requires forall i <- ones :: i < |rows|
    requires forall i: nat :: i < |rows| ==> weight(rows[i]) == if i in ones then 1 else 0
    ensures Total(rows, weight) == |ones|
  {
    if rows != [] {
      var n := |rows| - 1;
      TotalCounts(rows[..n], weight, ones - {n});
    } else {
      assert ones == {};
    }
  }

  /** The index of the first wanted row, or the number of rows. */
  function First<T>(rows: seq<T>, wanted: T -> bool): (i: nat)
    ensures i <= |rows| && (i < |rows| ==> wanted(rows[i]))
    ensures forall j :: 0 <= j < i ==> !wanted(rows[j])
  {
    if rows == [] then 0
    else
      var i := First(rows[..|rows| - 1], wanted);
      if i < |rows| - 1 || wanted(rows[|rows| - 1]) then i else |rows|
  }
}
