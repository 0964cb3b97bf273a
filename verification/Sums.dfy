/** Sums of a weight over the rows of a table. */
module Sums {
  function Sum<T>(rows: seq<T>, weight: T -> nat): nat {
    if rows == [] then 0 else Sum(rows[..|rows| - 1], weight) + weight(rows[|rows| - 1])
  }

  lemma SumAppend<T>(rows: seq<T>, row: T, weight: T -> nat)
    ensures Sum(rows + [row], weight) == Sum(rows, weight) + weight(row)
  {
    assert (rows + [row])[..|rows|] == rows;
  }

  lemma SumPair<T>(x: T, y: T, weight: T -> nat)
    ensures Sum([x, y], weight) == weight(x) + weight(y)
  {
    assert [x, y] == [x] + [y] && [x] == [] + [x];
    SumAppend([x], y, weight);
    SumAppend([], x, weight);
  }

  lemma {:induction false} SumConcat<T>(a: seq<T>, b: seq<T>, weight: T -> nat)
    ensures Sum(a + b, weight) == Sum(a, weight) + Sum(b, weight)
  {
    if b == [] {
      assert a + b == a;
    } else {
      var n := |b| - 1;
      assert (a + b)[..|a + b| - 1] == a + b[..n];
      SumConcat(a, b[..n], weight);
    }
  }

  lemma SumUpdate<T>(rows: seq<T>, i: nat, row: T, weight: T -> nat)
    requires i < |rows|
    ensures Sum(rows[i := row], weight) == Sum(rows, weight) - weight(rows[i]) + weight(row)
  {
    var tail := rows[i + 1..];
    assert rows == rows[..i] + [rows[i]] + tail;
    assert rows[i := row] == rows[..i] + [row] + tail;
    SumConcat(rows[..i] + [rows[i]], tail, weight);
    SumConcat(rows[..i] + [row], tail, weight);
    SumAppend(rows[..i], rows[i], weight);
    SumAppend(rows[..i], row, weight);
  }

  lemma {:induction false} SumPermutation<T>(a: seq<T>, b: seq<T>, weight: T -> nat)
    requires multiset(a) == multiset(b)
    ensures Sum(a, weight) == Sum(b, weight)
    decreases |a|
  {
    if a == [] {
      assert |b| == |multiset(b)| == |multiset(a)| == 0;
    } else {
      var n, x := |a| - 1, a[|a| - 1];
      assert a == a[..n] + [x];
      assert x in multiset(b);
      var i :| 0 <= i < |b| && b[i] == x;
      var rest := b[..i] + b[i + 1..];
      assert b == b[..i] + [x] + b[i + 1..];
      assert multiset(rest) == multiset(b) - multiset{x} == multiset(a[..n]);
      SumPermutation(a[..n], rest, weight);
      SumConcat(b[..i], b[i + 1..], weight);
      SumConcat(b[..i] + [x], b[i + 1..], weight);
      SumAppend(b[..i], x, weight);
    }
  }

  lemma {:induction false} SumAtMost<T>(rows: seq<T>, weight: T -> nat, limit: T -> nat)
    requires forall i | 0 <= i < |rows| :: weight(rows[i]) <= limit(rows[i])
    ensures Sum(rows, weight) <= Sum(rows, limit)
  {
    if rows != [] {
      SumAtMost(rows[..|rows| - 1], weight, limit);
    }
  }

  /** Pointwise sums of weights. */
  lemma {:induction false} SumPointwise<T>(rows: seq<T>, a: T -> nat, b: T -> nat, ab: T -> nat)
    requires forall i | 0 <= i < |rows| :: ab(rows[i]) == a(rows[i]) + b(rows[i])
    ensures Sum(rows, ab) == Sum(rows, a) + Sum(rows, b)
  {
    if rows != [] {
      SumPointwise(rows[..|rows| - 1], a, b, ab);
    }
  }

  lemma {:induction false} SumSame<T>(rows: seq<T>, a: T -> nat, b: T -> nat)
    requires forall i | 0 <= i < |rows| :: a(rows[i]) == b(rows[i])
    ensures Sum(rows, a) == Sum(rows, b)
  {
    if rows != [] {
      SumSame(rows[..|rows| - 1], a, b);
    }
  }

  /** Two weights that differ in one row only, which occurs once. */
  lemma SumDiffersAt<T>(rows: seq<T>, k: nat, a: T -> nat, b: T -> nat)
    requires k < |rows| && forall i | 0 <= i < |rows| && i != k :: a(rows[i]) == b(rows[i])
    ensures Sum(rows, b) + a(rows[k]) == Sum(rows, a) + b(rows[k])
  {
    var tail := rows[k + 1..];
    assert rows == rows[..k] + [rows[k]] + tail;
    SumConcat(rows[..k] + [rows[k]], tail, a);
    SumConcat(rows[..k] + [rows[k]], tail, b);
    SumAppend(rows[..k], rows[k], a);
    SumAppend(rows[..k], rows[k], b);
    SumSame(rows[..k], a, b);
    SumSame(tail, a, b);
  }

  lemma {:induction false} SumZero<T>(rows: seq<T>, weight: T -> nat)
    ensures Sum(rows, weight) == 0 <==> forall i | 0 <= i < |rows| :: weight(rows[i]) == 0
  {
    if rows != [] {
      var n := |rows| - 1;
      SumZero(rows[..n], weight);
      assert forall i | 0 <= i < n :: rows[..n][i] == rows[i];
    }
  }

  /** Two tables whose rows weigh the same, position by position. */
  lemma {:induction false} SumAlike<T>(a: seq<T>, b: seq<T>, weight: T -> nat)
    requires |a| == |b| && forall i | 0 <= i < |a| :: weight(a[i]) == weight(b[i])
    ensures Sum(a, weight) == Sum(b, weight)
    decreases |a|
  {
    if a != [] {
      SumAlike(a[..|a| - 1], b[..|b| - 1], weight);
    }
  }
}
